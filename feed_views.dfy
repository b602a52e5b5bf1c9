/** The relationship and like actions of the feed views: the crush status shown on user
    cards, the two crush endpoints (`crush_action` for user cards, `crush_action_profile`
    for the profile page), the like toggle, and the rule deciding who may see a post.

    Each endpoint is a pure request function from the old tables to the reply and the
    new tables; the methods perform the same writes statement by statement on the
    stored tables and are proved to agree with the request function. Users that the
    request names but that do not exist give the 404 of `get_object_or_404`. */
module FeedViews {
  import opened AccountsModels
  import opened FeedModels

  // ---------------------------------------------------------------------------
  // Crush status
  // ---------------------------------------------------------------------------

  datatype CrushStatus = NoCrush | Sent | Received | Mutual

  /** `get_crush_status` (and the recomputation after `crush_action`): from the
      presence of the two directed Crushes, ignoring their `is_mutual` flags. */
  function GetCrushStatus(g: Graph, current: UserId, person: UserId): (s: CrushStatus)
    ensures s == Mutual <==> (current, person) in g.crushes && (person, current) in g.crushes
    ensures s == Sent <==> (current, person) in g.crushes && (person, current) !in g.crushes
    ensures s == Received <==> (current, person) !in g.crushes && (person, current) in g.crushes
    ensures s == NoCrush <==> (current, person) !in g.crushes && (person, current) !in g.crushes
  {
    var sent := (current, person) in g.crushes;
    var received := (person, current) in g.crushes;
    if sent && received then Mutual
    else if sent then Sent
    else if received then Received
    else NoCrush
  }

  /** The status seen from the other side. */
  function Mirror(s: CrushStatus): CrushStatus {
    match s
    case Sent => Received
    case Received => Sent
    case _ => s
  }

  /** Each party sees the other's status mirrored: "sent" on one side is "received"
      on the other, and "mutual" and "none" are shared. */
  lemma StatusMirrored(g: Graph, a: UserId, b: UserId)
    ensures GetCrushStatus(g, b, a) == Mirror(GetCrushStatus(g, a, b))
  {
  }

  // ---------------------------------------------------------------------------
  // Replies
  // ---------------------------------------------------------------------------

  datatype CrushReply =
    | StatusReply(newCrushStatus: CrushStatus, heartsSent: nat, heartsReceived: nat, friends: nat)
    | FlagsReply(isMutual: bool, sentCrush: bool, receivedCrush: bool)
    | ErrorReply(status: int, message: string)

  /** Crushes `u` has sent that are not mutual. */
  function HeartsSent(c: CrushTable, u: UserId): nat {
    |set k | k in c.Keys && k.0 == u && !c[k].isMutual|
  }

  /** Crushes `u` has received that are not mutual. */
  function HeartsReceived(c: CrushTable, u: UserId): nat {
    |set k | k in c.Keys && k.1 == u && !c[k].isMutual|
  }

  /** Crushes `u` has sent that are mutual. */
  function FriendsCount(c: CrushTable, u: UserId): nat {
    |set k | k in c.Keys && k.0 == u && c[k].isMutual|
  }

  /** The JSON reply of `crush_action`: the new status and the current user's stats. */
  function StatusReplyFor(g: Graph, current: UserId, profile: UserId): CrushReply {
    StatusReply(GetCrushStatus(g, current, profile),
                HeartsSent(g.crushes, current), HeartsReceived(g.crushes, current),
                FriendsCount(g.crushes, current))
  }

  /** The JSON reply of `crush_action_profile`. */
  function FlagsReplyFor(g: Graph, current: UserId, profile: UserId): CrushReply {
    FlagsReply(HasMutualHeart(g, current, profile), (current, profile) in g.crushes,
               (profile, current) in g.crushes)
  }

  // ---------------------------------------------------------------------------
  // crush_action
  // ---------------------------------------------------------------------------

  /** `send_crush` in `crush_action`: get-or-create current -> profile; then, if the
      reverse Crush exists, flag both mutual and get-or-create the Friendship in the
      orientation (current, profile). */
  function SendCrush(g: Graph, current: UserId, profile: UserId, now: int): Graph {
    var c1 := GetOrCreateCrush(g.crushes, current, profile, now);
    if (profile, current) in c1 then
      Graph(SetMutual(SetMutual(c1, (current, profile), true), (profile, current), true),
            GetOrCreateFriendship(g.friendships, current, profile, now))
    else Graph(c1, g.friendships)
  }

  /** `uncrush` in `crush_action`: delete current -> profile, demote the reverse Crush,
      delete the Friendship in both orientations. */
  function Uncrush(g: Graph, current: UserId, profile: UserId): Graph {
    Graph(SetMutual(g.crushes - {(current, profile)}, (profile, current), false),
          g.friendships - {(current, profile), (profile, current)})
  }

  /** `crush_action`: the reply and the new tables. Any action other than the two
      known ones writes nothing and still replies with the status. */
  function CrushActionRequest(g: Graph, users: set<UserId>, isPost: bool, current: UserId,
                              profile: UserId, action: string, now: int): (CrushReply, Graph)
  {
    if !isPost then (ErrorReply(405, "Invalid request method"), g)
    else if profile !in users then (ErrorReply(404, "Not found"), g)
    else if profile == current then (ErrorReply(403, "Action on self not allowed."), g)
    else
      var g' := if action == "send_crush" then SendCrush(g, current, profile, now)
                else if action == "uncrush" then Uncrush(g, current, profile)
                else g;
      (StatusReplyFor(g', current, profile), g')
  }

  method CrushAction(t: RelationshipTables, users: set<UserId>, isPost: bool, current: UserId,
                     profile: UserId, action: string, now: int) returns (reply: CrushReply)
    modifies t
    ensures (reply, t.Snapshot()) == CrushActionRequest(old(t.Snapshot()), users, isPost, current, profile, action, now)
  {
    if !isPost {
      return ErrorReply(405, "Invalid request method");
    }
    if profile !in users {
      return ErrorReply(404, "Not found");
    }
    if profile == current {
      return ErrorReply(403, "Action on self not allowed.");
    }
    if action == "send_crush" {
      if (current, profile) !in t.crushes {
        t.crushes := t.crushes[(current, profile) := NewCrush(now)];
      }
      if (profile, current) in t.crushes {
        t.crushes := t.crushes[(current, profile) := t.crushes[(current, profile)].(isMutual := true)];
        t.crushes := t.crushes[(profile, current) := t.crushes[(profile, current)].(isMutual := true)];
        if (current, profile) !in t.friendships {
          t.friendships := t.friendships[(current, profile) := NewFriendship(now)];
        }
      }
    } else if action == "uncrush" {
      t.crushes := t.crushes - {(current, profile)};
      if (profile, current) in t.crushes {
        t.crushes := t.crushes[(profile, current) := t.crushes[(profile, current)].(isMutual := false)];
      }
      t.friendships := t.friendships - {(current, profile), (profile, current)};
    }
    reply := StatusReplyFor(t.Snapshot(), current, profile);
  }

  // ---------------------------------------------------------------------------
  // crush_action_profile
  // ---------------------------------------------------------------------------

  /** `send_crush` on the profile page: only a newly created Crush is checked for a
      reverse Crush; no Friendship is written. */
  function ProfileSend(g: Graph, current: UserId, profile: UserId, now: int): Graph {
    if (current, profile) in g.crushes then g
    else
      var c1 := g.crushes[(current, profile) := NewCrush(now)];
      if (profile, current) in c1 then
        Graph(SetMutual(SetMutual(c1, (current, profile), true), (profile, current), true), g.friendships)
      else Graph(c1, g.friendships)
  }

  /** `accept_crush`: only when a Crush was received; get-or-create the answer and flag
      both mutual. No Friendship is written. */
  function ProfileAccept(g: Graph, current: UserId, profile: UserId, now: int): Graph {
    if (profile, current) in g.crushes then
      var c1 := GetOrCreateCrush(g.crushes, current, profile, now);
      Graph(SetMutual(SetMutual(c1, (current, profile), true), (profile, current), true), g.friendships)
    else g
  }

  /** `uncrush` on the profile page: like `Uncrush` but the Friendship is kept. */
  function ProfileUncrush(g: Graph, current: UserId, profile: UserId): Graph {
    Graph(SetMutual(g.crushes - {(current, profile)}, (profile, current), false), g.friendships)
  }

  function CrushActionProfileRequest(g: Graph, users: set<UserId>, isPost: bool, current: UserId,
                                     profile: UserId, action: string, now: int): (CrushReply, Graph)
  {
    if !isPost then (ErrorReply(405, "Invalid request method"), g)
    else if profile !in users then (ErrorReply(404, "Not found"), g)
    else if profile == current then (ErrorReply(403, "You cannot perform this action on yourself."), g)
    else if action !in ["send_crush", "accept_crush", "uncrush"] then (ErrorReply(400, "Invalid crush action"), g)
    else
      var g' := if action == "send_crush" then ProfileSend(g, current, profile, now)
                else if action == "accept_crush" then ProfileAccept(g, current, profile, now)
                else ProfileUncrush(g, current, profile);
      (FlagsReplyFor(g', current, profile), g')
  }

  method CrushActionProfile(t: RelationshipTables, users: set<UserId>, isPost: bool, current: UserId,
                            profile: UserId, action: string, now: int) returns (reply: CrushReply)
    modifies t
    ensures (reply, t.Snapshot()) == CrushActionProfileRequest(old(t.Snapshot()), users, isPost, current, profile, action, now)
  {
    if !isPost {
      return ErrorReply(405, "Invalid request method");
    }
    if profile !in users {
      return ErrorReply(404, "Not found");
    }
    if profile == current {
      return ErrorReply(403, "You cannot perform this action on yourself.");
    }
    if action !in ["send_crush", "accept_crush", "uncrush"] {
      return ErrorReply(400, "Invalid crush action");
    }
    if action == "send_crush" {
      var created := (current, profile) !in t.crushes;
      if created {
        var crush := NewCrush(now);
        t.crushes := t.crushes[(current, profile) := crush];
        if (profile, current) in t.crushes {
          var received := t.crushes[(profile, current)];
          crush, received := crush.(isMutual := true), received.(isMutual := true);
          t.crushes := t.crushes[(current, profile) := crush];
          t.crushes := t.crushes[(profile, current) := received];
        }
      }
    } else if action == "accept_crush" {
      if (profile, current) in t.crushes {
        var received := t.crushes[(profile, current)];
        if (current, profile) !in t.crushes {
          t.crushes := t.crushes[(current, profile) := NewCrush(now)];
        }
        var sent := t.crushes[(current, profile)];
        sent, received := sent.(isMutual := true), received.(isMutual := true);
        t.crushes := t.crushes[(current, profile) := sent];
        t.crushes := t.crushes[(profile, current) := received];
      }
    } else {
      if (current, profile) in t.crushes {
        t.crushes := t.crushes - {(current, profile)};
      }
      if (profile, current) in t.crushes {
        var received := t.crushes[(profile, current)];
        received := received.(isMutual := false);
        t.crushes := t.crushes[(profile, current) := received];
      }
    }
    assert t.Snapshot() == CrushActionProfileRequest(old(t.Snapshot()), users, isPost, current, profile, action, now).1;
    reply := FlagsReplyFor(t.Snapshot(), current, profile);
  }

  // ---------------------------------------------------------------------------
  // Properties of the crush actions
  // ---------------------------------------------------------------------------

  /** The pairs other than {a, b} are the same in both snapshots, in both tables. */
  ghost predicate SameOutside(g: Graph, g': Graph, a: UserId, b: UserId) {
    && (forall k :: k != (a, b) && k != (b, a) ==> (k in g.crushes <==> k in g'.crushes))
    && (forall k :: k != (a, b) && k != (b, a) && k in g.crushes && k in g'.crushes ==> g.crushes[k] == g'.crushes[k])
    && (forall k :: k != (a, b) && k != (b, a) ==> (k in g.friendships <==> k in g'.friendships))
    && (forall k :: k != (a, b) && k != (b, a) && k in g.friendships && k in g'.friendships ==> g.friendships[k] == g'.friendships[k])
  }

  /** A crush action aimed at oneself is rejected and writes nothing, on either endpoint. */
  lemma SelfActionRejected(g: Graph, users: set<UserId>, u: UserId, action: string, now: int)
    requires u in users
    ensures CrushActionRequest(g, users, true, u, u, action, now) == (ErrorReply(403, "Action on self not allowed."), g)
    ensures CrushActionProfileRequest(g, users, true, u, u, action, now)
            == (ErrorReply(403, "You cannot perform this action on yourself."), g)
  {
  }

  /** After `send_crush` the Crush current -> profile exists; when the reverse Crush
      existed, both are mutual and Friendship (current, profile) exists; no other pair
      is touched. */
  lemma SendCrushOutcome(g: Graph, current: UserId, profile: UserId, now: int)
    requires current != profile
    ensures var g' := SendCrush(g, current, profile, now);
      && (current, profile) in g'.crushes
      && ((profile, current) in g.crushes ==>
            HasMutualHeart(g', current, profile) && HasMutualHeart(g', profile, current)
            && (current, profile) in g'.friendships)
      && ((profile, current) !in g.crushes ==>
            g'.friendships == g.friendships && (profile, current) !in g'.crushes)
      && SameOutside(g, g', current, profile)
  {
  }

  /** After `uncrush` the Crush current -> profile is gone, a reverse Crush survives
      un-flagged, no Friendship remains in either orientation, and no other pair is
      touched. */
  lemma UncrushOutcome(g: Graph, current: UserId, profile: UserId)
    requires current != profile
    ensures var g' := Uncrush(g, current, profile);
      && (current, profile) !in g'.crushes
      && ((profile, current) in g'.crushes <==> (profile, current) in g.crushes)
      && ((profile, current) in g'.crushes ==>
            g'.crushes[(profile, current)] == g.crushes[(profile, current)].(isMutual := false))
      && !AreFriends(g', current, profile)
      && SameOutside(g, g', current, profile)
  {
  }

  /** The relationship invariant: a Crush is flagged mutual exactly
      when its reverse exists, every Friendship joins two users with Crushes both ways,
      and two users with Crushes both ways are friends. */
  ghost predicate Coherent(g: Graph) {
    && (forall a, b :: (a, b) in g.crushes ==> (g.crushes[(a, b)].isMutual <==> (b, a) in g.crushes))
    && (forall a, b :: (a, b) in g.friendships ==> (a, b) in g.crushes && (b, a) in g.crushes)
    && (forall a, b :: (a, b) in g.crushes && (b, a) in g.crushes ==> AreFriends(g, a, b))
  }

  /** Under the invariant `has_mutual_heart` holds exactly when the two users have
      Crushes both ways, so it is symmetric and implies friendship. */
  lemma {:induction false} MutualHeartIffBothCrushes(g: Graph, a: UserId, b: UserId)
    requires Coherent(g)
    ensures HasMutualHeart(g, a, b) <==> (a, b) in g.crushes && (b, a) in g.crushes
    ensures HasMutualHeart(g, a, b) <==> HasMutualHeart(g, b, a)
    ensures HasMutualHeart(g, a, b) ==> AreFriends(g, a, b)
  {
    if (a, b) in g.crushes {
      assert g.crushes[(a, b)].isMutual <==> (b, a) in g.crushes;
    }
    if (b, a) in g.crushes {
      assert g.crushes[(b, a)].isMutual <==> (a, b) in g.crushes;
    }
  }

  lemma {:induction false} SendCrushKeepsCoherent(g: Graph, current: UserId, profile: UserId, now: int)
    requires Coherent(g) && current != profile
    ensures Coherent(SendCrush(g, current, profile, now))
  {
    var g' := SendCrush(g, current, profile, now);
    SendCrushOutcome(g, current, profile, now);
    forall a, b | (a, b) in g'.crushes
      ensures g'.crushes[(a, b)].isMutual <==> (b, a) in g'.crushes
    {
      if (a, b) != (current, profile) && (a, b) != (profile, current) {
        assert (a, b) in g.crushes;
        assert (b, a) in g'.crushes <==> (b, a) in g.crushes;
      } else if (profile, current) !in g.crushes {
        assert (a, b) == (current, profile);
        assert (current, profile) in g.crushes ==> !g.crushes[(current, profile)].isMutual;
      }
    }
    forall a, b | (a, b) in g'.friendships
      ensures (a, b) in g'.crushes && (b, a) in g'.crushes
    {
      if (a, b) != (current, profile) && (a, b) != (profile, current) {
        assert (a, b) in g.friendships;
      } else if (profile, current) !in g.crushes {
        assert (a, b) in g.friendships;
      }
    }
    forall a, b | (a, b) in g'.crushes && (b, a) in g'.crushes
      ensures AreFriends(g', a, b)
    {
      if (a, b) != (current, profile) && (a, b) != (profile, current) {
        assert (a, b) in g.crushes && (b, a) in g.crushes;
        assert AreFriends(g, a, b);
      }
    }
  }

  lemma {:induction false} UncrushKeepsCoherent(g: Graph, current: UserId, profile: UserId)
    requires Coherent(g) && current != profile
    ensures Coherent(Uncrush(g, current, profile))
  {
    var g' := Uncrush(g, current, profile);
    UncrushOutcome(g, current, profile);
    forall a, b | (a, b) in g'.crushes
      ensures g'.crushes[(a, b)].isMutual <==> (b, a) in g'.crushes
    {
      if (a, b) != (profile, current) {
        assert (a, b) in g.crushes;
        assert (b, a) in g'.crushes <==> (b, a) in g.crushes;
      }
    }
    forall a, b | (a, b) in g'.friendships
      ensures (a, b) in g'.crushes && (b, a) in g'.crushes
    {
      assert (a, b) in g.friendships;
    }
    forall a, b | (a, b) in g'.crushes && (b, a) in g'.crushes
      ensures AreFriends(g', a, b)
    {
      assert (a, b) in g.crushes && (b, a) in g.crushes;
      assert AreFriends(g, a, b);
    }
  }

  /** Every `crush_action` request keeps the relationship invariant. */
  lemma {:induction false} CrushActionKeepsCoherent(g: Graph, users: set<UserId>, isPost: bool, current: UserId,
                                                    profile: UserId, action: string, now: int)
    requires Coherent(g)
    ensures Coherent(CrushActionRequest(g, users, isPost, current, profile, action, now).1)
  {
    if isPost && profile in users && profile != current {
      if action == "send_crush" {
        SendCrushKeepsCoherent(g, current, profile, now);
      } else if action == "uncrush" {
        UncrushKeepsCoherent(g, current, profile);
      }
    }
  }

  /** Two sends make a pair mutual: starting with no Crush between a and b, a then b
      send a crush; both now see "mutual", both Crushes are mutual, and the pair has
      exactly one Friendship record, created by the second sender. */
  lemma {:induction false} MutualCrushScenario(g: Graph, a: UserId, b: UserId, now1: int, now2: int)
    requires Coherent(g) && a != b
    requires (a, b) !in g.crushes && (b, a) !in g.crushes
    ensures var g2 := SendCrush(SendCrush(g, a, b, now1), b, a, now2);
      && GetCrushStatus(g2, a, b) == Mutual && GetCrushStatus(g2, b, a) == Mutual
      && HasMutualHeart(g2, a, b) && HasMutualHeart(g2, b, a)
      && (b, a) in g2.friendships && (a, b) !in g2.friendships
  {
    var g1 := SendCrush(g, a, b, now1);
    SendCrushOutcome(g, a, b, now1);
    assert !AreFriends(g, a, b);
    assert (a, b) !in g1.friendships;
    SendCrushOutcome(g1, b, a, now2);
  }

  /** Withdrawing from a mutual pair removes the friendship, but the other user's
      Crush survives: the withdrawing side now sees "received", the other side "sent". */
  lemma WithdrawScenario(g: Graph, a: UserId, b: UserId)
    requires a != b && (a, b) in g.crushes && (b, a) in g.crushes
    ensures var g' := Uncrush(g, a, b);
      && GetCrushStatus(g', a, b) == Received && GetCrushStatus(g', b, a) == Sent
      && !AreFriends(g', a, b) && !HasMutualHeart(g', b, a)
  {
  }

  /** `crush_action` can leave two Friendship records for one pair: b became friends
      with a by sending second, then a sends again, and `get_or_create(user1=a,
      user2=b)` does not find the (b, a) record. */
  lemma CrushActionDuplicatesFriendship()
    ensures var g := Graph(map[(1, 2) := CrushRow(true, 0), (2, 1) := CrushRow(true, 1)],
                           map[(2, 1) := NewFriendship(1)]);
      var g' := SendCrush(g, 1, 2, 5);
      && Coherent(g) && OneFriendshipPerPair(g)
      && (1, 2) in g'.friendships && (2, 1) in g'.friendships && !OneFriendshipPerPair(g')
  {
    var g := Graph(map[(1, 2) := CrushRow(true, 0), (2, 1) := CrushRow(true, 1)],
                   map[(2, 1) := NewFriendship(1)]);
    assert g.crushes.Keys == {(1, 2), (2, 1)};
    assert g.friendships.Keys == {(2, 1)};
    var g' := SendCrush(g, 1, 2, 5);
    assert (1, 2) in g'.friendships && (2, 1) in g'.friendships;
  }

  /** The profile endpoint keeps the mutual flags consistent with the Crush pairs. */
  lemma {:induction false} ProfileActionKeepsMutualFlags(g: Graph, users: set<UserId>, isPost: bool, current: UserId,
                                                         profile: UserId, action: string, now: int)
    requires forall a, b :: (a, b) in g.crushes ==> (g.crushes[(a, b)].isMutual <==> (b, a) in g.crushes)
    ensures var g' := CrushActionProfileRequest(g, users, isPost, current, profile, action, now).1;
      forall a, b :: (a, b) in g'.crushes ==> (g'.crushes[(a, b)].isMutual <==> (b, a) in g'.crushes)
  {
    var g' := CrushActionProfileRequest(g, users, isPost, current, profile, action, now).1;
    if g' != g {
      assert current != profile;
      forall a, b | (a, b) in g'.crushes
        ensures g'.crushes[(a, b)].isMutual <==> (b, a) in g'.crushes
      {
        if (a, b) != (current, profile) && (a, b) != (profile, current) {
          assert (a, b) in g.crushes && g'.crushes[(a, b)] == g.crushes[(a, b)];
          assert (b, a) in g'.crushes <==> (b, a) in g.crushes;
        }
      }
    }
  }

  /** The profile endpoint never writes a Friendship: accepting a received crush makes
      the pair mutual with no Friendship, and withdrawing keeps an existing one. Both
      break the invariant that `crush_action` keeps. */
  lemma ProfileActionsSkipFriendship()
    ensures var g := Graph(map[(2, 1) := NewCrush(0)], map[]);
      var g' := ProfileAccept(g, 1, 2, 3);
      Coherent(g) && HasMutualHeart(g', 1, 2) && HasMutualHeart(g', 2, 1)
      && !AreFriends(g', 1, 2) && !Coherent(g')
    ensures var g := Graph(map[(1, 2) := CrushRow(true, 0), (2, 1) := CrushRow(true, 1)],
                           map[(1, 2) := NewFriendship(1)]);
      var g' := ProfileUncrush(g, 1, 2);
      Coherent(g) && (1, 2) !in g'.crushes && AreFriends(g', 1, 2) && !Coherent(g')
  {
    var g1 := Graph(map[(2, 1) := NewCrush(0)], map[]);
    assert g1.crushes.Keys == {(2, 1)};
    var g1' := ProfileAccept(g1, 1, 2, 3);
    assert (1, 2) in g1'.crushes && (2, 1) in g1'.crushes && !AreFriends(g1', 1, 2);
    var g2 := Graph(map[(1, 2) := CrushRow(true, 0), (2, 1) := CrushRow(true, 1)],
                    map[(1, 2) := NewFriendship(1)]);
    assert g2.crushes.Keys == {(1, 2), (2, 1)};
    assert g2.friendships.Keys == {(1, 2)};
    var g2' := ProfileUncrush(g2, 1, 2);
    assert (1, 2) in g2'.friendships;
  }

  // ---------------------------------------------------------------------------
  // like_post
  // ---------------------------------------------------------------------------

  datatype LikeReply = LikeToggled(liked: bool, likesCount: nat) | LikeError(status: int, message: string)

  /** `get_or_create` the Like, and delete it when it already existed. */
  function ToggleLike(likes: set<(PostId, UserId)>, post: PostId, user: UserId): set<(PostId, UserId)> {
    if (post, user) in likes then likes - {(post, user)} else likes + {(post, user)}
  }

  function LikePostRequest(likes: set<(PostId, UserId)>, posts: set<PostId>, isPost: bool,
                           post: PostId, user: UserId): (LikeReply, set<(PostId, UserId)>)
  {
    if !isPost then (LikeError(400, "Invalid request"), likes)
    else if post !in posts then (LikeError(404, "Not found"), likes)
    else
      var likes' := ToggleLike(likes, post, user);
      (LikeToggled((post, user) !in likes, LikesCount(likes', post)), likes')
  }

  method LikePost(t: LikeTable, posts: set<PostId>, isPost: bool, post: PostId, user: UserId)
    returns (reply: LikeReply)
    modifies t
    ensures (reply, t.likes) == LikePostRequest(old(t.likes), posts, isPost, post, user)
  {
    if !isPost {
      return LikeError(400, "Invalid request");
    }
    if post !in posts {
      return LikeError(404, "Not found");
    }
    var created := (post, user) !in t.likes;
    if created {
      t.likes := t.likes + {(post, user)};
    } else {
      t.likes := t.likes - {(post, user)};
    }
    reply := LikeToggled(created, LikesCount(t.likes, post));
  }

  /** A like request reports `liked` exactly when the user's Like now exists, the count
      moves by one in that direction, only this Like changes, and liking twice restores
      the table. */
  lemma {:induction false} LikeToggleOutcome(likes: set<(PostId, UserId)>, posts: set<PostId>, post: PostId, user: UserId)
    requires post in posts
    ensures var (reply, likes') := LikePostRequest(likes, posts, true, post, user);
      && reply.LikeToggled?
      && (reply.liked <==> (post, user) in likes')
      && (reply.liked ==> reply.likesCount == LikesCount(likes, post) + 1)
      && (!reply.liked ==> reply.likesCount + 1 == LikesCount(likes, post))
      && likes' - {(post, user)} == likes - {(post, user)}
      && LikePostRequest(likes', posts, true, post, user).1 == likes
  {
    var before := set k | k in likes && k.0 == post;
    var likes' := ToggleLike(likes, post, user);
    var after := set k | k in likes' && k.0 == post;
    if (post, user) in likes {
      assert after == before - {(post, user)};
    } else {
      assert after == before + {(post, user)};
    }
  }

  // ---------------------------------------------------------------------------
  // Post visibility
  // ---------------------------------------------------------------------------

  /** The owner and users whose Crush on the owner is mutual see every post (`profile`). */
  predicate SeesAllPosts(g: Graph, viewer: UserId, owner: UserId) {
    viewer == owner || HasMutualHeart(g, viewer, owner)
  }

  /** The posts listed on `owner`'s profile for `viewer` (unordered here). */
  function ProfilePosts(g: Graph, posts: set<Post>, viewer: UserId, owner: UserId): set<Post> {
    if SeesAllPosts(g, viewer, owner) then set p | p in posts && p.owner == owner
    else set p | p in posts && p.owner == owner && p.isPublic
  }

  /** The check of `get_post_comments`. */
  predicate CommentsDenied(g: Graph, p: Post, viewer: UserId) {
    !p.isPublic && viewer != p.owner && !HasMutualHeart(g, viewer, p.owner)
  }

  /** The check of `get_post_data`. */
  predicate PostDataDenied(g: Graph, p: Post, viewer: UserId) {
    !(p.isPublic || viewer == p.owner || HasMutualHeart(g, viewer, p.owner))
  }

  /** The three views apply one visibility rule: a post is listed on its owner's
      profile exactly when its comments and its details may be fetched. */
  lemma VisibilityRulesAgree(g: Graph, posts: set<Post>, p: Post, viewer: UserId)
    requires p in posts
    ensures p in ProfilePosts(g, posts, viewer, p.owner) <==> !CommentsDenied(g, p, viewer)
    ensures !CommentsDenied(g, p, viewer) <==> !PostDataDenied(g, p, viewer)
    ensures !CommentsDenied(g, p, viewer) <==> p.isPublic || SeesAllPosts(g, viewer, p.owner)
  {
  }
}
