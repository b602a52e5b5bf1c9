/** The post and confession records of the feed application: the upload path of a
    post image, the `Like` table (at most one like per (post, user), made structural
    by keeping the table as a set of key pairs), the record defaults, and the display
    strings that hide the author of an anonymous confession or comment. */
module FeedModels {
  import opened Wrappers
  import opened Text
  import opened AccountsModels

  type PostId = nat
  type ConfessionId = nat

  /** A Post row, reduced to the columns the access rules read. */
  datatype Post = Post(id: PostId, owner: UserId, caption: string, createdAt: int, isPublic: bool)

  /** A new Post is private unless the form sets `is_public`. */
  function NewPost(id: PostId, owner: UserId, caption: string, now: int): (p: Post)
    ensures !p.isPublic && p.id == id && p.owner == owner && p.caption == caption && p.createdAt == now
  {
    Post(id, owner, caption, now, false)
  }

  /** `post_image_path`: images are stored under "posts/<username>/<filename>". */
  function PostImagePath(username: string, filename: string): (path: string)
    ensures |path| == 7 + |username| + |filename|
    ensures path[..6] == "posts/" && path[6 + |username|] == '/'
    ensures path[6..6 + |username|] == username && path[7 + |username|..] == filename
  {
    "posts/" + username + "/" + filename
  }

  /** Different users' uploads never share a path: when usernames contain no '/', the
      path determines both the username and the file name. */
  lemma {:induction false} PostImagePathInjective(u1: string, f1: string, u2: string, f2: string)
    requires '/' !in u1 && '/' !in u2
    requires PostImagePath(u1, f1) == PostImagePath(u2, f2)
    ensures u1 == u2 && f1 == f2
  {
  }

  // ---------------------------------------------------------------------------
  // Likes
  // ---------------------------------------------------------------------------

  /** The Like table: one (post, user) key per like. */
  class LikeTable {
    var likes: set<(PostId, UserId)>

    constructor (initial: set<(PostId, UserId)>)
      ensures likes == initial
    {
      likes := initial;
    }
  }

  /** The number of likes on `post` (`post.likes.count()`). */
  function LikesCount(likes: set<(PostId, UserId)>, post: PostId): nat {
    |set k | k in likes && k.0 == post|
  }

  // ---------------------------------------------------------------------------
  // Confessions
  // ---------------------------------------------------------------------------

  /** A Confession row; `user` may be null. `createdOn` is the creation date already
      rendered as "%b %d, %Y". */
  datatype Confession = Confession(content: string, isAnonymous: bool, author: Option<string>, createdOn: string)

  /** A confession is anonymous unless its author chooses otherwise. */
  function NewConfession(content: string, author: Option<string>, createdOn: string): (c: Confession)
    ensures c.isAnonymous
  {
    Confession(content, true, author, createdOn)
  }

  /** `Confession.__str__`. The named form requires an author (the source would fail
      on a null user). */
  function ConfessionTitle(c: Confession): string
    requires !c.isAnonymous ==> c.author.Some?
  {
    if c.isAnonymous then "Anonymous confession on " + c.createdOn
    else "Confession by " + c.author.value + " on " + c.createdOn
  }

  /** The anonymous form is used exactly for anonymous confessions, and it does not
      depend on who wrote the confession. */
  lemma ConfessionTitleHidesAuthor(c: Confession, other: Option<string>)
    requires !c.isAnonymous ==> c.author.Some?
    ensures c.isAnonymous <==> ConfessionTitle(c)[..10] == "Anonymous "
    ensures c.isAnonymous ==> ConfessionTitle(c) == ConfessionTitle(c.(author := other))
  {
    if !c.isAnonymous {
      assert ConfessionTitle(c)[..10] == "Confession";
    }
  }

  /** A ConfessionComment row; its author is never null. */
  datatype ConfessionComment = ConfessionComment(confession: ConfessionId, author: string, content: string, isAnonymous: bool)

  /** A comment is signed unless the commenter asks for anonymity. */
  function NewConfessionComment(confession: ConfessionId, author: string, content: string): (c: ConfessionComment)
    ensures !c.isAnonymous
  {
    ConfessionComment(confession, author, content, false)
  }

  /** The name a ConfessionComment is shown under (`user_display`). */
  function CommentDisplayName(c: ConfessionComment): (name: string)
    ensures c.isAnonymous ==> name == "Anonymous"
    ensures !c.isAnonymous ==> name == c.author
  {
    if c.isAnonymous then "Anonymous" else c.author
  }

  /** `ConfessionComment.__str__`. */
  function CommentTitle(c: ConfessionComment): string {
    "Comment by " + CommentDisplayName(c) + " on Confession #" + DecimalString(c.confession)
  }

  /** An anonymous comment's title is the same whoever wrote it. */
  lemma CommentTitleHidesAuthor(c: ConfessionComment, other: string)
    requires c.isAnonymous
    ensures CommentTitle(c) == CommentTitle(c.(author := other))
  {
  }
}
