/** The chat views: the conversation page (`chat_view`), clearing a conversation
    (`delete_chat`), the inbox (`_get_active_conversations`, `inbox_unread_status`),
    and the two polling endpoints (`inbox_updates`, `poll_new_messages`).

    Every view is a request function from the old tables to the reply and the new
    tables; the views that write are also methods on `ChatTables` that perform the
    same writes and are proved to agree with their request function. Users are looked
    up by username in `users`; a missing one gives the 404 of `get_object_or_404`. */
module ChatViews {
  import opened Wrappers
  import opened AccountsModels
  import opened ChatModels

  // ---------------------------------------------------------------------------
  // Filtering the log
  // ---------------------------------------------------------------------------

  /** `Message.objects.filter(...)`: the messages `keep` accepts, in log order. */
  function Select(log: seq<Message>, keep: Message -> bool): (r: seq<Message>)
    ensures |r| <= |log|
    ensures forall m :: m in r <==> m in log && keep(m)
    ensures Ordered(log) ==> Ordered(r)
    decreases |log|
  {
    if log == [] then []
    else
      var rest := Select(log[1..], keep);
      assert log == [log[0]] + log[1..];
      if keep(log[0]) then
        assert Ordered(log) ==> Ordered([log[0]] + rest) by {
          if Ordered(log) {
            OrderedCons(log[0], rest);
          }
        }
        [log[0]] + rest
      else rest
  }

  /** Each accepted message is selected as often as it occurs in the log, and no
      other message is selected. */
  lemma {:induction false} SelectCounts(log: seq<Message>, keep: Message -> bool)
    ensures forall m :: multiset(Select(log, keep))[m] == if keep(m) then multiset(log)[m] else 0
    decreases |log|
  {
    if log != [] {
      var rest := Select(log[1..], keep);
      SelectCounts(log[1..], keep);
      assert log == [log[0]] + log[1..];
      assert multiset(log) == multiset{log[0]} + multiset(log[1..]);
      if keep(log[0]) {
        assert Select(log, keep) == [log[0]] + rest;
        assert multiset(Select(log, keep)) == multiset{log[0]} + multiset(rest);
      } else {
        assert Select(log, keep) == rest;
      }
    }
  }

  lemma OrderedCons(m: Message, rest: seq<Message>)
    requires Ordered(rest) && forall m' :: m' in rest ==> m.timestamp <= m'.timestamp
    ensures Ordered([m] + rest)
  {
    var r := [m] + rest;
    forall i, j | 0 <= i < j < |r|
      ensures r[i].timestamp <= r[j].timestamp
    {
      if i == 0 {
        assert r[j] in rest;
      } else {
        assert r[i] == rest[i - 1] && r[j] == rest[j - 1];
      }
    }
  }

  /** Filtering with two tests that agree on the log gives the same messages. */
  lemma {:induction false} SelectSameTest(log: seq<Message>, p: Message -> bool, q: Message -> bool)
    requires forall m :: m in log ==> p(m) == q(m)
    ensures Select(log, p) == Select(log, q)
    decreases |log|
  {
    if log != [] {
      assert forall m :: m in log[1..] ==> m in log;
      SelectSameTest(log[1..], p, q);
    }
  }

  /** Nothing is selected when the test rejects every message. */
  lemma {:induction false} SelectNone(log: seq<Message>, keep: Message -> bool)
    requires forall m :: m in log ==> !keep(m)
    ensures Select(log, keep) == []
    decreases |log|
  {
    if log != [] {
      assert forall m :: m in log[1..] ==> m in log;
      SelectNone(log[1..], keep);
    }
  }

  /** Both ends of the message are among `u` and `o` (`sender__in=[u, o]`,
      `receiver__in=[u, o]`); a message from `u` to itself also passes. */
  predicate InPair(m: Message, u: UserId, o: UserId) {
    (m.sender == u || m.sender == o) && (m.receiver == u || m.receiver == o)
  }

  /** After `owner`'s watermark for `peer`, or anywhere when there is none. */
  predicate AfterWatermark(w: Watermarks, owner: UserId, peer: UserId, t: int) {
    (owner, peer) !in w || t > w[(owner, peer)]
  }

  /** The conversation `owner` sees with `peer`: the messages between the two that
      are newer than `owner`'s watermark, in timestamp order. */
  function ConversationView(log: seq<Message>, w: Watermarks, owner: UserId, peer: UserId): (v: seq<Message>)
    ensures forall m :: m in v <==> m in log && InPair(m, owner, peer) && AfterWatermark(w, owner, peer, m.timestamp)
    ensures forall m :: multiset(v)[m] ==
              if InPair(m, owner, peer) && AfterWatermark(w, owner, peer, m.timestamp) then multiset(log)[m] else 0
    ensures Ordered(log) ==> Ordered(v)
  {
    SelectCounts(log, m => InPair(m, owner, peer) && AfterWatermark(w, owner, peer, m.timestamp));
    Select(log, m => InPair(m, owner, peer) && AfterWatermark(w, owner, peer, m.timestamp))
  }

  /** The view depends only on the owner's own watermark for that peer. */
  lemma {:induction false} ConversationViewOwnWatermark(log: seq<Message>, w: Watermarks, w': Watermarks, owner: UserId, peer: UserId)
    requires ((owner, peer) in w <==> (owner, peer) in w')
    requires (owner, peer) in w ==> w[(owner, peer)] == w'[(owner, peer)]
    ensures ConversationView(log, w, owner, peer) == ConversationView(log, w', owner, peer)
  {
    SelectSameTest(log, m => InPair(m, owner, peer) && AfterWatermark(w, owner, peer, m.timestamp),
                   m => InPair(m, owner, peer) && AfterWatermark(w', owner, peer, m.timestamp));
  }

  // ---------------------------------------------------------------------------
  // Replies
  // ---------------------------------------------------------------------------

  datatype ChatReply =
    | ErrorReply(status: int, error: string)
    | Echo(sender: UserId, content: string, timestamp: int)
    | Page(messages: seq<Message>)
    | Deleted
    | Polled(messages: seq<Message>)

  // ---------------------------------------------------------------------------
  // chat_view
  // ---------------------------------------------------------------------------

  /** `chat_view`: opening the chat marks the other user's messages to `me` read; a
      POST with non-empty content stores one message and echoes it; otherwise the
      conversation page is shown. */
  function ChatViewRequest(s: ChatState, users: map<string, UserId>, me: UserId, username: string,
                           isPost: bool, content: Option<string>, now: int): (ChatReply, ChatState)
  {
    if username !in users then (ErrorReply(404, "Not found"), s)
    else
      var other := users[username];
      var log := MarkedRead(s.messages, other, me, None);
      if isPost && content.Some? && content.value != "" then
        (Echo(me, content.value, now), ChatState(log + [NewMessage(me, other, content.value, now)], s.deletedAt))
      else
        (Page(ConversationView(log, s.deletedAt, me, other)), ChatState(log, s.deletedAt))
  }

  method ChatView(t: ChatTables, users: map<string, UserId>, me: UserId, username: string,
                  isPost: bool, content: Option<string>, now: int) returns (reply: ChatReply)
    modifies t
    ensures (reply, t.Snapshot()) == ChatViewRequest(old(t.Snapshot()), users, me, username, isPost, content, now)
  {
    if username !in users {
      return ErrorReply(404, "Not found");
    }
    var other := users[username];
    t.MarkRead(other, me, None);
    if isPost && content.Some? && content.value != "" {
      t.Create(me, other, content.value, now);
      return Echo(me, content.value, now);
    }
    reply := Page(ConversationView(t.messages, t.deletedAt, me, other));
  }

  /** Opening the chat sets `read` on exactly the unread messages from the other user
      to `me` and changes nothing else; non-empty posted content appends exactly one
      unread message from `me` to the other user, and anything else appends nothing.
      With the clock past the log, the log stays in timestamp order. */
  lemma {:induction false} ChatViewOutcome(s: ChatState, users: map<string, UserId>, me: UserId, username: string,
                                           isPost: bool, content: Option<string>, now: int)
    requires username in users
    ensures var other := users[username];
      var (reply, s') := ChatViewRequest(s, users, me, username, isPost, content, now);
      var sends := isPost && content.Some? && content.value != "";
      && s'.deletedAt == s.deletedAt
      && |s'.messages| == |s.messages| + (if sends then 1 else 0)
      && (forall i :: 0 <= i < |s.messages| ==>
            s'.messages[i] == s.messages[i].(read := s.messages[i].read || (s.messages[i].sender == other && s.messages[i].receiver == me)))
      && (sends ==> s'.messages[|s.messages|] == NewMessage(me, other, content.value, now) && reply == Echo(me, content.value, now))
      && (!sends ==> reply.Page?)
      && (Ordered(s.messages) && ClockAfter(s.messages, now) ==> Ordered(s'.messages))
  {
    var other := users[username];
    var log := MarkedRead(s.messages, other, me, None);
    MarkedReadOutcome(s.messages, other, me, None);
    assert forall i :: 0 <= i < |s.messages| ==>
             log[i] == s.messages[i].(read := s.messages[i].read || (s.messages[i].sender == other && s.messages[i].receiver == me));
    if Ordered(s.messages) && ClockAfter(s.messages, now) && isPost && content.Some? && content.value != "" {
      assert ClockAfter(log, now) by {
        if log != [] {
          assert log[|log| - 1].timestamp == s.messages[|s.messages| - 1].timestamp;
        }
      }
      AppendKeepsOrdered(log, NewMessage(me, other, content.value, now));
    }
  }

  // ---------------------------------------------------------------------------
  // delete_chat
  // ---------------------------------------------------------------------------

  /** `delete_chat`: what it replies, the messages it hands to the archive, and the
      new tables. `archiveOk` says whether writing the archive file succeeded. */
  function DeleteChatRequest(s: ChatState, users: map<string, UserId>, isPost: bool, me: UserId,
                             username: string, archiveOk: bool, now: int): (ChatReply, seq<Message>, ChatState)
  {
    if !isPost then (ErrorReply(405, ""), [], s)
    else if username !in users then (ErrorReply(404, "Not found"), [], s)
    else if users[username] == me then (ErrorReply(400, "Cannot delete chat with yourself."), [], s)
    else
      var other := users[username];
      var archived := ConversationView(s.messages, s.deletedAt, me, other);
      if !archiveOk then (ErrorReply(500, "Could not archive chat"), archived, s)
      else (Deleted, archived, ChatState(s.messages, s.deletedAt[(me, other) := now]))
  }

  method DeleteChat(t: ChatTables, users: map<string, UserId>, isPost: bool, me: UserId,
                    username: string, archiveOk: bool, now: int) returns (reply: ChatReply, archived: seq<Message>)
    modifies t
    ensures (reply, archived, t.Snapshot()) == DeleteChatRequest(old(t.Snapshot()), users, isPost, me, username, archiveOk, now)
  {
    archived := [];
    if !isPost {
      return ErrorReply(405, ""), archived;
    }
    if username !in users {
      return ErrorReply(404, "Not found"), archived;
    }
    var other := users[username];
    if other == me {
      return ErrorReply(400, "Cannot delete chat with yourself."), archived;
    }
    archived := ConversationView(t.messages, t.deletedAt, me, other);
    if !archiveOk {
      return ErrorReply(500, "Could not archive chat"), archived;
    }
    t.UpdateOrCreateDeletedChat(me, other, now);
    reply := Deleted;
  }

  /** Clearing a chat with oneself is refused and changes nothing. */
  lemma DeleteChatSelfRejected(s: ChatState, users: map<string, UserId>, me: UserId, username: string,
                               archiveOk: bool, now: int)
    requires username in users && users[username] == me
    ensures DeleteChatRequest(s, users, true, me, username, archiveOk, now)
            == (ErrorReply(400, "Cannot delete chat with yourself."), [], s)
  {
  }

  /** The archive holds exactly the messages of the pair after the previous watermark,
      in timestamp order; if it cannot be written nothing changes, and otherwise only
      the watermark (me, other) is set to `now`. */
  lemma DeleteChatOutcome(s: ChatState, users: map<string, UserId>, me: UserId, username: string,
                          archiveOk: bool, now: int)
    requires username in users && users[username] != me
    ensures var other := users[username];
      var (reply, archived, s') := DeleteChatRequest(s, users, true, me, username, archiveOk, now);
      && (forall m :: m in archived <==> m in s.messages && InPair(m, me, other) && AfterWatermark(s.deletedAt, me, other, m.timestamp))
      && (forall m :: multiset(archived)[m] ==
            if InPair(m, me, other) && AfterWatermark(s.deletedAt, me, other, m.timestamp) then multiset(s.messages)[m] else 0)
      && (Ordered(s.messages) ==> Ordered(archived))
      && (!archiveOk ==> reply.ErrorReply? && reply.status == 500 && s' == s)
      && (archiveOk ==> reply == Deleted && s'.messages == s.messages && s'.deletedAt == s.deletedAt[(me, other) := now])
  {
  }

  /** Once cleared at a time no message is newer than, the owner's view of the
      conversation is empty. */
  lemma {:induction false} ClearedViewIsEmpty(s: ChatState, users: map<string, UserId>, me: UserId, username: string, now: int)
    requires username in users && users[username] != me
    requires Ordered(s.messages) && ClockAfter(s.messages, now)
    ensures var s' := DeleteChatRequest(s, users, true, me, username, true, now).2;
      ConversationView(s'.messages, s'.deletedAt, me, users[username]) == []
  {
    var other := users[username];
    var s' := DeleteChatRequest(s, users, true, me, username, true, now).2;
    var v := ConversationView(s'.messages, s'.deletedAt, me, other);
    forall k | 0 <= k < |s.messages|
      ensures s.messages[k].timestamp <= now
    {
      assert s.messages[k].timestamp <= s.messages[|s.messages| - 1].timestamp;
    }
    SelectNone(s'.messages, m => InPair(m, me, other) && AfterWatermark(s'.deletedAt, me, other, m.timestamp));
  }


  /** Clearing twice with no message in between leaves the view empty both times. */
  lemma {:induction false} ClearTwiceIdempotent(s: ChatState, users: map<string, UserId>, me: UserId, username: string,
                                                now1: int, now2: int)
    requires username in users && users[username] != me
    requires Ordered(s.messages) && ClockAfter(s.messages, now1) && now1 <= now2
    ensures var s1 := DeleteChatRequest(s, users, true, me, username, true, now1).2;
      var s2 := DeleteChatRequest(s1, users, true, me, username, true, now2).2;
      && ConversationView(s1.messages, s1.deletedAt, me, users[username]) == []
      && ConversationView(s2.messages, s2.deletedAt, me, users[username]) == []
      && DeleteChatRequest(s1, users, true, me, username, true, now2).1 == []
  {
    var s1 := DeleteChatRequest(s, users, true, me, username, true, now1).2;
    ClearedViewIsEmpty(s, users, me, username, now1);
    ClearedViewIsEmpty(s1, users, me, username, now2);
  }

  /** Clearing is per owner: the other user's view of the same conversation is what
      it was. */
  lemma {:induction false} ClearKeepsPeerView(s: ChatState, users: map<string, UserId>, me: UserId, username: string,
                                              archiveOk: bool, now: int)
    requires username in users && users[username] != me
    ensures var other := users[username];
      var s' := DeleteChatRequest(s, users, true, me, username, archiveOk, now).2;
      ConversationView(s'.messages, s'.deletedAt, other, me) == ConversationView(s.messages, s.deletedAt, other, me)
  {
    var other := users[username];
    var s' := DeleteChatRequest(s, users, true, me, username, archiveOk, now).2;
    ConversationViewOwnWatermark(s.messages, s.deletedAt, s'.deletedAt, other, me);
  }

  // ---------------------------------------------------------------------------
  // _get_active_conversations
  // ---------------------------------------------------------------------------

  /** The message was exchanged between `u` and `p`, in either direction. */
  predicate Between(m: Message, u: UserId, p: UserId) {
    (m.sender == u && m.receiver == p) || (m.sender == p && m.receiver == u)
  }

  predicate Involves(m: Message, u: UserId) {
    m.sender == u || m.receiver == u
  }

  /** The other end of a message that involves `u`. */
  function Partner(m: Message, u: UserId): (p: UserId)
    requires Involves(m, u)
    ensures Between(m, u, p)
    ensures forall q :: Between(m, u, q) ==> q == p
  {
    if m.sender == u then m.receiver else m.sender
  }

  /** `has_unread`: an unread message from `p` to `u` after `u`'s watermark for `p`. */
  predicate HasUnread(log: seq<Message>, w: Watermarks, u: UserId, p: UserId) {
    exists m :: m in log && m.sender == p && m.receiver == u && !m.read && AfterWatermark(w, u, p, m.timestamp)
  }

  /** `has_unread` as the query is written. The watermark subquery is nested inside a
      query over messages, and `OuterRef('pk')` refers to the immediately enclosing
      query, so the row read is `u`'s watermark whose `other_user` id equals the
      message's id, not the partner's. Message ids are auto-increment keys given in
      storage order: the message at index `k` has id `k + 1`. */
  predicate HasUnreadAsWritten(log: seq<Message>, w: Watermarks, u: UserId, p: UserId) {
    exists k :: 0 <= k < |log| && log[k].sender == p && log[k].receiver == u && !log[k].read
                && AfterWatermark(w, u, k + 1, log[k].timestamp)
  }

  /** The as-written flag reads the wrong watermark both ways. (1) User 7 sends user 5
      a message at time 1 that 5 leaves unread; 5 clears the chat with 7 at time 2 and
      then writes to 7 at time 3: 7 is listed and flagged, though the unread message
      was cleared. (2) User 7's unread message at time 3 has id 1, and 5 cleared the
      chat with user 1 at time 4: 7 is listed but not flagged. */
  lemma HasUnreadAsWrittenMisreads()
    ensures var log := [NewMessage(7, 5, "hi", 1), NewMessage(5, 7, "back", 3)];
      var w := map[(5, 7) := 2];
      && ExchangedSinceWatermark(log, w, 5, 7)
      && HasUnreadAsWritten(log, w, 5, 7) && !HasUnread(log, w, 5, 7)
    ensures var log := [NewMessage(7, 5, "hi", 3)];
      var w := map[(5, 1) := 4];
      && ExchangedSinceWatermark(log, w, 5, 7)
      && !HasUnreadAsWritten(log, w, 5, 7) && HasUnread(log, w, 5, 7)
  {
    var log := [NewMessage(7, 5, "hi", 1), NewMessage(5, 7, "back", 3)];
    var w := map[(5, 7) := 2];
    assert Between(log[1], 5, 7) && AfterWatermark(w, 5, 7, log[1].timestamp);
    assert !log[0].read && AfterWatermark(w, 5, 1, log[0].timestamp);
    var log2 := [NewMessage(7, 5, "hi", 3)];
    var w2 := map[(5, 1) := 4];
    assert Between(log2[0], 5, 7) && AfterWatermark(w2, 5, 7, log2[0].timestamp);
    assert log2[0] in log2;
  }

  /** One inbox row. */
  datatype ConversationSummary = ConversationSummary(peer: UserId, lastMessageTime: int, hasUnread: bool)

  /** Walks `log[..i]` from the newest message back. The first message seen with a new
      partner is that partner's last message; the partner is listed with its time when
      the time is after `u`'s watermark for the partner. */
  function Scan(log: seq<Message>, w: Watermarks, u: UserId, i: nat, seen: set<UserId>): seq<ConversationSummary>
    requires i <= |log|
    decreases i
  {
    if i == 0 then []
    else
      var m := log[i - 1];
      if Involves(m, u) && Partner(m, u) !in seen then
        var p := Partner(m, u);
        var rest := Scan(log, w, u, i - 1, seen + {p});
        if AfterWatermark(w, u, p, m.timestamp) then [ConversationSummary(p, m.timestamp, HasUnread(log, w, u, p))] + rest
        else rest
      else Scan(log, w, u, i - 1, seen)
  }

  /** `_get_active_conversations(u)`, newest conversation first. */
  function ActiveConversations(log: seq<Message>, w: Watermarks, u: UserId): seq<ConversationSummary> {
    Scan(log, w, u, |log|, {})
  }

  /** `k` is the last index before `i` of a message between `u` and `p`. */
  ghost predicate LastBefore(log: seq<Message>, u: UserId, p: UserId, i: nat, k: int)
    requires i <= |log|
  {
    0 <= k < i && Between(log[k], u, p) && forall k' :: k < k' < i ==> !Between(log[k'], u, p)
  }

  /** The last message before `i` with `p` at time `t`. */
  ghost predicate LastTimeBefore(log: seq<Message>, u: UserId, p: UserId, i: nat, t: int)
    requires i <= |log|
  {
    exists k :: LastBefore(log, u, p, i, k) && log[k].timestamp == t
  }

  /** A message not between `u` and `p` does not change which message is their last. */
  lemma LastBeforeSkip(log: seq<Message>, u: UserId, p: UserId, i: nat, t: int)
    requires 0 < i <= |log| && !Between(log[i - 1], u, p)
    ensures LastTimeBefore(log, u, p, i - 1, t) <==> LastTimeBefore(log, u, p, i, t)
  {
    if LastTimeBefore(log, u, p, i, t) {
      var k :| LastBefore(log, u, p, i, k) && log[k].timestamp == t;
      assert LastBefore(log, u, p, i - 1, k);
    }
    if LastTimeBefore(log, u, p, i - 1, t) {
      var k :| LastBefore(log, u, p, i - 1, k) && log[k].timestamp == t;
      assert LastBefore(log, u, p, i, k);
    }
  }

  ghost predicate RowFacts(log: seq<Message>, w: Watermarks, u: UserId, i: nat, seen: set<UserId>, row: ConversationSummary)
    requires i <= |log|
  {
    && row.peer !in seen
    && LastTimeBefore(log, u, row.peer, i, row.lastMessageTime)
    && row.hasUnread == HasUnread(log, w, u, row.peer)
    && AfterWatermark(w, u, row.peer, row.lastMessageTime)
  }

  /** Each row names a partner not in `seen`, with the time of their last message
      before `i`, the unread flag, and a time after `u`'s watermark for them. */
  lemma {:induction false} ScanRows(log: seq<Message>, w: Watermarks, u: UserId, i: nat, seen: set<UserId>)
    requires i <= |log|
    ensures forall j :: 0 <= j < |Scan(log, w, u, i, seen)| ==> RowFacts(log, w, u, i, seen, Scan(log, w, u, i, seen)[j])
    decreases i
  {
    if i > 0 {
      var m := log[i - 1];
      if Involves(m, u) && Partner(m, u) !in seen {
        var p := Partner(m, u);
        var rest := Scan(log, w, u, i - 1, seen + {p});
        ScanRows(log, w, u, i - 1, seen + {p});
        forall j | 0 <= j < |rest|
          ensures LastTimeBefore(log, u, rest[j].peer, i, rest[j].lastMessageTime)
        {
          assert rest[j].peer !in seen + {p};
          assert rest[j].peer != p;
          assert !Between(m, u, rest[j].peer);
          LastBeforeSkip(log, u, rest[j].peer, i, rest[j].lastMessageTime);
        }
        assert LastBefore(log, u, p, i, i - 1);
      } else {
        var r := Scan(log, w, u, i - 1, seen);
        ScanRows(log, w, u, i - 1, seen);
        forall j | 0 <= j < |r|
          ensures LastTimeBefore(log, u, r[j].peer, i, r[j].lastMessageTime)
        {
          LastBeforeSkip(log, u, r[j].peer, i, r[j].lastMessageTime);
        }
      }
    }
  }

  /** No partner has two rows. */
  lemma {:induction false} ScanDistinct(log: seq<Message>, w: Watermarks, u: UserId, i: nat, seen: set<UserId>)
    requires i <= |log|
    ensures forall j1, j2 :: 0 <= j1 < j2 < |Scan(log, w, u, i, seen)| ==>
              Scan(log, w, u, i, seen)[j1].peer != Scan(log, w, u, i, seen)[j2].peer
    decreases i
  {
    if i > 0 {
      var m := log[i - 1];
      if Involves(m, u) && Partner(m, u) !in seen {
        var p := Partner(m, u);
        ScanDistinct(log, w, u, i - 1, seen + {p});
        ScanRows(log, w, u, i - 1, seen + {p});
      } else {
        ScanDistinct(log, w, u, i - 1, seen);
      }
    }
  }

  /** A partner not in `seen` whose last message before `i` is after the watermark
      has a row. */
  lemma {:induction false} ScanComplete(log: seq<Message>, w: Watermarks, u: UserId, i: nat, seen: set<UserId>, p: UserId, k: int)
    requires i <= |log|
    requires p !in seen && LastBefore(log, u, p, i, k) && AfterWatermark(w, u, p, log[k].timestamp)
    ensures Listed(Scan(log, w, u, i, seen), p)
    decreases i
  {
    var m := log[i - 1];
    var r := Scan(log, w, u, i, seen);
    if k == i - 1 {
      assert Involves(m, u) && Partner(m, u) == p;
      assert r[0].peer == p;
    } else {
      assert LastBefore(log, u, p, i - 1, k);
      if Involves(m, u) && Partner(m, u) !in seen {
        var q := Partner(m, u);
        assert q != p;
        var rest := Scan(log, w, u, i - 1, seen + {q});
        ScanComplete(log, w, u, i - 1, seen + {q}, p, k);
        var j :| 0 <= j < |rest| && rest[j].peer == p;
        assert r[|r| - |rest| + j] == rest[j];
      } else {
        ScanComplete(log, w, u, i - 1, seen, p, k);
      }
    }
  }

  /** Over a log in timestamp order the rows come newest first. */
  lemma {:induction false} ScanNewestFirst(log: seq<Message>, w: Watermarks, u: UserId, i: nat, seen: set<UserId>)
    requires i <= |log| && Ordered(log)
    ensures forall j1, j2 :: 0 <= j1 < j2 < |Scan(log, w, u, i, seen)| ==>
              Scan(log, w, u, i, seen)[j1].lastMessageTime >= Scan(log, w, u, i, seen)[j2].lastMessageTime
    decreases i
  {
    if i > 0 {
      var m := log[i - 1];
      if Involves(m, u) && Partner(m, u) !in seen {
        var p := Partner(m, u);
        var rest := Scan(log, w, u, i - 1, seen + {p});
        ScanNewestFirst(log, w, u, i - 1, seen + {p});
        ScanRows(log, w, u, i - 1, seen + {p});
        forall j | 0 <= j < |rest|
          ensures m.timestamp >= rest[j].lastMessageTime
        {
          assert RowFacts(log, w, u, i - 1, seen + {p}, rest[j]);
          var k :| LastBefore(log, u, rest[j].peer, i - 1, k) && log[k].timestamp == rest[j].lastMessageTime;
        }
      } else {
        ScanNewestFirst(log, w, u, i - 1, seen);
      }
    }
  }

  /** Every message between `u` and `p` has its last one. */
  lemma {:induction false} LastExists(log: seq<Message>, u: UserId, p: UserId, i: nat, k0: nat)
    requires k0 < i <= |log| && Between(log[k0], u, p)
    ensures exists k :: k0 <= k && LastBefore(log, u, p, i, k)
    decreases i
  {
    if !Between(log[i - 1], u, p) {
      LastExists(log, u, p, i - 1, k0);
      var k :| k0 <= k && LastBefore(log, u, p, i - 1, k);
      assert LastBefore(log, u, p, i, k);
    } else {
      assert LastBefore(log, u, p, i, i - 1);
    }
  }

  /** `p` has a row in the inbox `r`. */
  predicate Listed(r: seq<ConversationSummary>, p: UserId) {
    exists j :: 0 <= j < |r| && r[j].peer == p
  }

  /** `u` and `p` exchanged a message newer than `u`'s watermark for `p`. */
  ghost predicate ExchangedSinceWatermark(log: seq<Message>, w: Watermarks, u: UserId, p: UserId) {
    exists k :: 0 <= k < |log| && Between(log[k], u, p) && AfterWatermark(w, u, p, log[k].timestamp)
  }

  /** The time of the last message between `u` and `p` (the largest timestamp). */
  ghost predicate IsLastMessageTime(log: seq<Message>, u: UserId, p: UserId, t: int) {
    && (exists k :: 0 <= k < |log| && Between(log[k], u, p) && log[k].timestamp == t)
    && (forall k :: 0 <= k < |log| && Between(log[k], u, p) ==> log[k].timestamp <= t)
  }

  /** The inbox lists a user exactly when the two have exchanged a message newer than
      `u`'s watermark for that user, each user once, with the time of the last
      message between them and the `has_unread` flag, newest conversation first. */
  lemma {:induction false} ActiveConversationsCorrect(log: seq<Message>, w: Watermarks, u: UserId)
    requires Ordered(log)
    ensures var r := ActiveConversations(log, w, u);
      && (forall p :: Listed(r, p) <==> ExchangedSinceWatermark(log, w, u, p))
      && (forall j :: 0 <= j < |r| ==> IsLastMessageTime(log, u, r[j].peer, r[j].lastMessageTime))
      && (forall j :: 0 <= j < |r| ==> r[j].hasUnread == HasUnread(log, w, u, r[j].peer))
      && (forall j1, j2 :: 0 <= j1 < j2 < |r| ==> r[j1].peer != r[j2].peer)
      && (forall j1, j2 :: 0 <= j1 < j2 < |r| ==> r[j1].lastMessageTime >= r[j2].lastMessageTime)
  {
    var r := ActiveConversations(log, w, u);
    ScanRows(log, w, u, |log|, {});
    ScanDistinct(log, w, u, |log|, {});
    ScanNewestFirst(log, w, u, |log|, {});
    forall j | 0 <= j < |r|
      ensures IsLastMessageTime(log, u, r[j].peer, r[j].lastMessageTime)
      ensures ExchangedSinceWatermark(log, w, u, r[j].peer)
    {
      assert RowFacts(log, w, u, |log|, {}, r[j]);
      var k :| LastBefore(log, u, r[j].peer, |log|, k) && log[k].timestamp == r[j].lastMessageTime;
      forall k' | 0 <= k' < |log| && Between(log[k'], u, r[j].peer)
        ensures log[k'].timestamp <= r[j].lastMessageTime
      {
        assert k' <= k;
      }
    }
    forall p | ExchangedSinceWatermark(log, w, u, p)
      ensures Listed(r, p)
    {
      var k0 :| 0 <= k0 < |log| && Between(log[k0], u, p) && AfterWatermark(w, u, p, log[k0].timestamp);
      LastExists(log, u, p, |log|, k0);
      var k :| k0 <= k && LastBefore(log, u, p, |log|, k);
      assert log[k0].timestamp <= log[k].timestamp;
      ScanComplete(log, w, u, |log|, {}, p, k);
    }
  }

  /** `inbox_unread_status`: the listed users whose row has `has_unread`. */
  function UnreadStatus(log: seq<Message>, w: Watermarks, u: UserId): set<UserId> {
    var r := ActiveConversations(log, w, u);
    set j | 0 <= j < |r| && r[j].hasUnread :: r[j].peer
  }

  /** A user is flagged exactly when they sent `u` an unread message after `u`'s
      watermark for them: such a message also keeps the conversation listed. */
  lemma {:induction false} UnreadStatusCorrect(log: seq<Message>, w: Watermarks, u: UserId, p: UserId)
    requires Ordered(log)
    ensures p in UnreadStatus(log, w, u) <==> HasUnread(log, w, u, p)
  {
    var r := ActiveConversations(log, w, u);
    ActiveConversationsCorrect(log, w, u);
    if HasUnread(log, w, u, p) {
      var m :| m in log && m.sender == p && m.receiver == u && !m.read && AfterWatermark(w, u, p, m.timestamp);
      var k :| 0 <= k < |log| && log[k] == m;
      assert Between(log[k], u, p);
      assert ExchangedSinceWatermark(log, w, u, p);
      assert Listed(r, p);
      var j :| 0 <= j < |r| && r[j].peer == p;
      assert r[j].hasUnread;
    }
  }

  // ---------------------------------------------------------------------------
  // inbox_updates
  // ---------------------------------------------------------------------------

  /** The `after` query parameter: missing or empty, not a date-time, or a time. */
  datatype Cursor = Absent | Unparseable | At(time: int)

  datatype UpdatesReply =
    | UpdatesError(status: int, error: string)
    | Updates(lastUpdate: int, newMessages: bool, deletedChats: bool, readMessages: bool)

  /** A message to or from `u` newer than `t`. */
  predicate NewMessagesSince(log: seq<Message>, u: UserId, t: int) {
    exists m :: m in log && (m.receiver == u || m.sender == u) && m.timestamp > t
  }

  /** A watermark of `u`'s newer than `t`. */
  predicate DeletionsSince(w: Watermarks, u: UserId, t: int) {
    exists k :: k in w && k.0 == u && w[k] > t
  }

  /** A read message to `u` newer than `t`. */
  predicate ReadSince(log: seq<Message>, u: UserId, t: int) {
    exists m :: m in log && m.receiver == u && m.read && m.timestamp > t
  }

  function InboxUpdates(s: ChatState, u: UserId, after: Cursor, now: int): (r: UpdatesReply)
    ensures r.UpdatesError? <==> !after.At?
    ensures after.Absent? ==> r == UpdatesError(400, "Missing timestamp parameter")
    ensures after.Unparseable? ==> r == UpdatesError(400, "Invalid timestamp format")
  {
    match after
    case Absent => UpdatesError(400, "Missing timestamp parameter")
    case Unparseable => UpdatesError(400, "Invalid timestamp format")
    case At(t) => Updates(now, NewMessagesSince(s.messages, u, t), DeletionsSince(s.deletedAt, u, t), ReadSince(s.messages, u, t))
  }

  /** Nothing is reported after the clock: a cursor at or past every timestamp in the
      tables reports no change. */
  lemma {:induction false} NoUpdatesAfterLatest(s: ChatState, u: UserId, t: int, now: int)
    requires forall m :: m in s.messages ==> m.timestamp <= t
    requires forall k :: k in s.deletedAt ==> s.deletedAt[k] <= t
    ensures InboxUpdates(s, u, At(t), now) == Updates(now, false, false, false)
  {
  }

  // ---------------------------------------------------------------------------
  // poll_new_messages
  // ---------------------------------------------------------------------------

  /** `poll_new_messages`: the messages from the other user to `me` after the cursor,
      which are then marked read. The watermark is not consulted. */
  function PollRequest(s: ChatState, users: map<string, UserId>, me: UserId, username: string, after: Cursor): (ChatReply, ChatState)
  {
    if username !in users then (ErrorReply(404, "Not found"), s)
    else
      var other := users[username];
      match after
      case Absent => (Polled([]), s)
      case Unparseable => (ErrorReply(400, "Invalid timestamp format"), s)
      case At(t) =>
        (Polled(Select(s.messages, m => Selected(m, other, me, Some(t)))),
         ChatState(MarkedRead(s.messages, other, me, Some(t)), s.deletedAt))
  }

  method PollNewMessages(t: ChatTables, users: map<string, UserId>, me: UserId, username: string, after: Cursor)
    returns (reply: ChatReply)
    modifies t
    ensures (reply, t.Snapshot()) == PollRequest(old(t.Snapshot()), users, me, username, after)
  {
    if username !in users {
      return ErrorReply(404, "Not found");
    }
    var other := users[username];
    if after.Absent? {
      return Polled([]);
    }
    if after.Unparseable? {
      return ErrorReply(400, "Invalid timestamp format");
    }
    var cursor := Some(after.time);
    var fetched := Select(t.messages, m => Selected(m, other, me, cursor));
    reply := Polled(fetched);
    if fetched != [] {
      t.MarkRead(other, me, cursor);
    } else {
      MarkedReadNothingSelected(t.messages, other, me, cursor);
    }
  }

  /** Marking read when nothing is selected changes no message. */
  lemma {:induction false} MarkedReadNothingSelected(log: seq<Message>, from: UserId, to: UserId, after: Option<int>)
    requires Select(log, m => Selected(m, from, to, after)) == []
    ensures MarkedRead(log, from, to, after) == log
  {
    forall i | 0 <= i < |log|
      ensures !Selected(log[i], from, to, after)
    {
      assert log[i] in log;
    }
  }

  /** A poll without a cursor returns nothing and changes nothing, and an unparseable
      cursor is refused; with a cursor it returns exactly the messages from the other
      user to `me` after the cursor, each as often as it is stored, in timestamp order,
      and afterwards each of them is read while every other message is unchanged. */
  lemma {:induction false} PollOutcome(s: ChatState, users: map<string, UserId>, me: UserId, username: string, after: Cursor)
    requires username in users
    ensures after.Absent? ==> PollRequest(s, users, me, username, after) == (Polled([]), s)
    ensures after.Unparseable? ==> PollRequest(s, users, me, username, after) == (ErrorReply(400, "Invalid timestamp format"), s)
    ensures after.At? ==>
      var other := users[username];
      var (reply, s') := PollRequest(s, users, me, username, after);
      && reply.Polled?
      && (forall m :: m in reply.messages <==> m in s.messages && m.sender == other && m.receiver == me && m.timestamp > after.time)
      && (forall m :: multiset(reply.messages)[m] ==
            if m.sender == other && m.receiver == me && m.timestamp > after.time then multiset(s.messages)[m] else 0)
      && (Ordered(s.messages) ==> Ordered(reply.messages))
      && s'.deletedAt == s.deletedAt && |s'.messages| == |s.messages|
      && (forall i :: 0 <= i < |s.messages| && Selected(s.messages[i], other, me, Some(after.time)) ==>
            s'.messages[i] == s.messages[i].(read := true))
      && (forall i :: 0 <= i < |s.messages| && !Selected(s.messages[i], other, me, Some(after.time)) ==> s'.messages[i] == s.messages[i])
  {
    if after.At? {
      var other, t := users[username], after.time;
      var fetched := Select(s.messages, m => Selected(m, other, me, Some(t)));
      SelectCounts(s.messages, m => Selected(m, other, me, Some(t)));
      assert forall m: Message :: multiset(fetched)[m] ==
               if m.sender == other && m.receiver == me && m.timestamp > t then multiset(s.messages)[m] else 0;
      var log' := MarkedRead(s.messages, other, me, Some(t));
      assert forall i :: 0 <= i < |s.messages| ==>
               log'[i] == if Selected(s.messages[i], other, me, Some(t)) then s.messages[i].(read := true) else s.messages[i];
    }
  }

  // ---------------------------------------------------------------------------
  // An end-to-end run
  // ---------------------------------------------------------------------------

  /** a sends "hi" to b, who has not cleared the chat: b's inbox lists a with the
      unread flag. b opens the chat: the flag is gone. a sends again later: polling
      b's inbox with the time of the first message reports a new message. */
  lemma {:induction false} UnreadRoundTrip(log: seq<Message>, w: Watermarks, a: UserId, b: UserId, t1: int, t2: int)
    requires a != b && Ordered(log) && ClockAfter(log, t1) && t1 < t2
    requires (b, a) !in w
    requires forall m :: m in log && m.sender == a && m.receiver == b ==> m.read
    ensures var log1 := log + [NewMessage(a, b, "hi", t1)];
      var log2 := MarkedRead(log1, a, b, None);
      var log3 := log2 + [NewMessage(a, b, "you there?", t2)];
      && (exists j :: 0 <= j < |ActiveConversations(log1, w, b)| && ActiveConversations(log1, w, b)[j] == ConversationSummary(a, t1, true))
      && !HasUnread(log2, w, b, a)
      && InboxUpdates(ChatState(log3, w), b, At(t1), t2).newMessages
  {
    var hi := NewMessage(a, b, "hi", t1);
    var log1 := log + [hi];
    AppendKeepsOrdered(log, hi);
    assert log1[|log|] == hi;
    assert HasUnread(log1, w, b, a);
    ActiveConversationsCorrect(log1, w, b);
    var r := ActiveConversations(log1, w, b);
    assert Between(log1[|log|], b, a);
    var j :| 0 <= j < |r| && r[j].peer == a;
    assert IsLastMessageTime(log1, b, a, r[j].lastMessageTime);
    assert r[j].lastMessageTime == t1 by {
      var k :| 0 <= k < |log1| && Between(log1[k], b, a) && log1[k].timestamp == r[j].lastMessageTime;
      assert log1[k].timestamp <= log1[|log|].timestamp;
    }
    var log2 := MarkedRead(log1, a, b, None);
    MarkedReadOutcome(log1, a, b, None);
    forall i | 0 <= i < |log2|
      ensures !(log2[i].sender == a && log2[i].receiver == b && !log2[i].read)
    {
    }
    var there := NewMessage(a, b, "you there?", t2);
    var log3 := log2 + [there];
    assert log3[|log2|] == there;
  }
}
