/** The relationship records of the accounts application: directed `Crush` edges with
    their `is_mutual` flag, `Friendship` records, and the queries and the mutuality
    check the models define on them.

    Each table is a map keyed by the table's `unique_together` key, so "at most one
    Crush per ordered (sender, receiver) pair" and "at most one Friendship per ordered
    (user1, user2) pair" hold by construction; the value is the rest of the row. */
module AccountsModels {
  import opened Wrappers

  /** A user's primary key. */
  type UserId = nat

  /** The non-key columns of a Crush row. */
  datatype CrushRow = CrushRow(isMutual: bool, timestamp: int)

  /** The non-key columns of a Friendship row. */
  datatype FriendshipRow = FriendshipRow(createdAt: int, confirmedAt: Option<int>)

  type CrushTable = map<(UserId, UserId), CrushRow>
  type FriendshipTable = map<(UserId, UserId), FriendshipRow>

  /** A snapshot of both relationship tables. */
  datatype Graph = Graph(crushes: CrushTable, friendships: FriendshipTable)

  /** A row created with the model's defaults: `is_mutual` is false and the timestamp
      is the creation time (`auto_now_add`). */
  function NewCrush(now: int): (row: CrushRow)
    ensures !row.isMutual && row.timestamp == now
  {
    CrushRow(false, now)
  }

  /** A Friendship created with its defaults: `confirmed_at` is null. */
  function NewFriendship(now: int): (row: FriendshipRow)
    ensures row.createdAt == now && row.confirmedAt.None?
  {
    FriendshipRow(now, None)
  }

  /** A UserQuestionnaire row (one per user): every answer is a string and may be
      blank; `hobbiesInterests` holds the chosen hobbies joined by ','. */
  datatype Questionnaire = Questionnaire(personality: string, communicationStyle: string,
                                         hobbiesInterests: string, year: string,
                                         relationshipStatus: string, lookingFor: string)

  /** The row `get_or_create` inserts: all answers blank. */
  function BlankQuestionnaire(): (q: Questionnaire)
    ensures q.personality == q.communicationStyle == q.hobbiesInterests == ""
    ensures q.year == q.relationshipStatus == q.lookingFor == ""
  {
    Questionnaire("", "", "", "", "", "")
  }

  // ---------------------------------------------------------------------------
  // Queries
  // ---------------------------------------------------------------------------

  /** `User.has_mutual_heart`: a Crush from `self` to `other` exists and is flagged
      mutual. */
  predicate HasMutualHeart(g: Graph, self: UserId, other: UserId) {
    (self, other) in g.crushes && g.crushes[(self, other)].isMutual
  }

  /** `Friendship.are_friends`: a Friendship exists in either orientation. */
  predicate AreFriends(g: Graph, a: UserId, b: UserId) {
    (a, b) in g.friendships || (b, a) in g.friendships
  }

  lemma AreFriendsSymmetric(g: Graph, a: UserId, b: UserId)
    ensures AreFriends(g, a, b) == AreFriends(g, b, a)
  {
  }

  // ---------------------------------------------------------------------------
  // Table updates shared by the models and the views
  // ---------------------------------------------------------------------------

  /** `Crush.objects.get_or_create(sender=s, receiver=r)`: an existing row is kept,
      otherwise a default row is inserted. */
  function GetOrCreateCrush(c: CrushTable, s: UserId, r: UserId, now: int): (c': CrushTable)
    ensures (s, r) in c'
    ensures (s, r) in c ==> c' == c
    ensures (s, r) !in c ==> c'[(s, r)] == NewCrush(now)
    ensures forall k :: k != (s, r) ==> (k in c' <==> k in c)
    ensures forall k :: k in c && k in c' ==> c'[k] == c[k]
  {
    if (s, r) in c then c else c[(s, r) := NewCrush(now)]
  }

  /** Sets the `is_mutual` flag of row `k` if that row exists (an `update()` on a
      filter that matches at most one row, or assigning the field and `save()`). */
  function SetMutual(c: CrushTable, k: (UserId, UserId), flag: bool): (c': CrushTable)
    ensures c'.Keys == c.Keys
    ensures k in c ==> c'[k] == c[k].(isMutual := flag)
    ensures forall j :: j in c && j != k ==> c'[j] == c[j]
  {
    if k in c then c[k := c[k].(isMutual := flag)] else c
  }

  /** `Friendship.objects.get_or_create(user1=a, user2=b)`. */
  function GetOrCreateFriendship(f: FriendshipTable, a: UserId, b: UserId, now: int): (f': FriendshipTable)
    ensures (a, b) in f'
    ensures (a, b) in f ==> f' == f
    ensures f'.Keys == f.Keys + {(a, b)}
    ensures forall k :: k in f ==> f'[k] == f[k]
  {
    if (a, b) in f then f else f[(a, b) := NewFriendship(now)]
  }

  /** `Crush.check_mutual_and_create_friendship` on the Crush instance `self` (sender
      `s`, receiver `r`, other columns `row`): when the reverse Crush exists, both are
      saved with `is_mutual` set, and a Friendship (s, r) is created unless the two
      are already friends in either orientation. With no reverse Crush nothing is
      written. */
  function CheckMutual(g: Graph, s: UserId, r: UserId, row: CrushRow, now: int): Graph {
    if (r, s) in g.crushes then
      // `reverse` was read before `self` is saved, and is saved last
      var reverse := g.crushes[(r, s)];
      var c1 := g.crushes[(s, r) := row.(isMutual := true)];
      var c2 := c1[(r, s) := reverse.(isMutual := true)];
      var f := if !AreFriends(g, s, r) then GetOrCreateFriendship(g.friendships, s, r, now)
               else g.friendships;
      Graph(c2, f)
    else g
  }

  /** With the reverse Crush present, both directed Crushes end mutual and the pair are
      friends; without it, nothing changes. */
  lemma CheckMutualEffect(g: Graph, s: UserId, r: UserId, row: CrushRow, now: int)
    ensures var g' := CheckMutual(g, s, r, row, now);
      if (r, s) in g.crushes then
        HasMutualHeart(g', s, r) && HasMutualHeart(g', r, s) && AreFriends(g', s, r)
      else g' == g
  {
  }

  /** The check never adds a second Friendship for a pair: when the two are already
      friends the Friendship table is untouched, and otherwise it gains at most the one
      record (s, r). Rows of other Crush pairs are never touched. */
  lemma CheckMutualAddsNoSecondFriendship(g: Graph, s: UserId, r: UserId, row: CrushRow, now: int)
    ensures var g' := CheckMutual(g, s, r, row, now);
      && (AreFriends(g, s, r) ==> g'.friendships == g.friendships)
      && g'.friendships.Keys <= g.friendships.Keys + {(s, r)}
      && (forall k :: k in g.friendships ==> k in g'.friendships && g'.friendships[k] == g.friendships[k])
      && (forall k :: k != (s, r) && k != (r, s) ==>
            (k in g'.crushes <==> k in g.crushes) && (k in g.crushes ==> g'.crushes[k] == g.crushes[k]))
  {
  }

  /** At most one Friendship record per unordered pair: never both orientations. */
  ghost predicate OneFriendshipPerPair(g: Graph) {
    forall a, b :: (a, b) in g.friendships && (b, a) in g.friendships ==> a == b
  }

  lemma {:induction false} CheckMutualKeepsOneFriendshipPerPair(g: Graph, s: UserId, r: UserId, row: CrushRow, now: int)
    requires OneFriendshipPerPair(g)
    ensures OneFriendshipPerPair(CheckMutual(g, s, r, row, now))
  {
    var g' := CheckMutual(g, s, r, row, now);
    forall a, b | (a, b) in g'.friendships && (b, a) in g'.friendships
      ensures a == b
    {
      if (a, b) !in g.friendships || (b, a) !in g.friendships {
        assert !AreFriends(g, s, r);
        assert {(a, b), (b, a)} <= g.friendships.Keys + {(s, r)};
      }
    }
  }

  // ---------------------------------------------------------------------------
  // The stored tables, updated in place
  // ---------------------------------------------------------------------------

  /** The Crush and Friendship tables as the database holds them. */
  class RelationshipTables {
    var crushes: CrushTable
    var friendships: FriendshipTable

    constructor (g: Graph)
      ensures Snapshot() == g
    {
      crushes := g.crushes;
      friendships := g.friendships;
    }

    function Snapshot(): Graph
      reads this
    {
      Graph(crushes, friendships)
    }

    /** `Crush.check_mutual_and_create_friendship`, statement by statement. */
    method CheckMutualAndCreateFriendship(s: UserId, r: UserId, row: CrushRow, now: int)
      modifies this
      ensures Snapshot() == CheckMutual(old(Snapshot()), s, r, row, now)
    {
      if (r, s) in crushes {
        var self := row.(isMutual := true);
        var reverse := crushes[(r, s)].(isMutual := true);
        crushes := crushes[(s, r) := self];
        crushes := crushes[(r, s) := reverse];
        var friends := (s, r) in friendships || (r, s) in friendships;
        if !friends {
          if (s, r) !in friendships {
            friendships := friendships[(s, r) := NewFriendship(now)];
          }
        }
      }
    }
  }
}
