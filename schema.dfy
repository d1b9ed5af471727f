/**
  The rows of the social network's relational store, and lookups by key.

  Ids are opaque strings generated by the store. Timestamps are a natural
  number clock: a larger `createdAt` is a later creation.
 */
module Schema {
  import opened Wrappers
  import Sorting

  type Id = string

  datatype Profile = Profile(bio: string, location: string, avatarUrl: Option<string>)

  /**
    A user with its one-to-one profile relation, which may be absent. The
    display name is a nullable column.
   */
  datatype User = User(id: Id, name: Option<string>, email: string, image: Option<string>, profile: Option<Profile>)

  /** A user's own columns, as `include: { user: true }` returns them: no profile. */
  datatype UserRow = UserRow(id: Id, name: Option<string>, email: string, image: Option<string>)

  datatype Post = Post(id: Id, userId: Id, imageUrl: string, caption: Option<string>, createdAt: nat)

  datatype Comment = Comment(id: Id, content: string, userId: Id, postId: Id, createdAt: nat)

  /**
    A row of a join table (likes or saved posts): `userId` likes or has saved
    `postId`. The pair (userId, postId) is the table's compound unique key.
   */
  datatype JoinRow = JoinRow(userId: Id, postId: Id, createdAt: nat)

  /** The author fields selected when saved posts are listed: id, name and image. */
  datatype UserSummary = UserSummary(id: Id, name: Option<string>, image: Option<string>)

  /** A post returned with its author (of shape `A`), its likes and its comments. */
  datatype PostWith<A> = PostWith(post: Post, user: A, likes: seq<JoinRow>, comments: seq<Comment>)

  /** The posts of a query result, in result order. */
  function PostsIn<A>(xs: seq<PostWith<A>>): (ps: seq<Post>)
    ensures |ps| == |xs|
    ensures forall i :: 0 <= i < |xs| ==> ps[i] == xs[i].post
  {
    seq(|xs|, i requires 0 <= i < |xs| => xs[i].post)
  }

  /** The ids of the posts of a query result, in result order. */
  function PostIds<A>(xs: seq<PostWith<A>>): (ids: seq<Id>)
    ensures |ids| == |xs|
    ensures forall i :: 0 <= i < |xs| ==> ids[i] == xs[i].post.id
  {
    seq(|xs|, i requires 0 <= i < |xs| => xs[i].post.id)
  }

  function Columns(u: User): (row: UserRow)
    ensures row.id == u.id && row.name == u.name && row.email == u.email && row.image == u.image
  {
    UserRow(u.id, u.name, u.email, u.image)
  }

  function Summary(u: User): (s: UserSummary)
    ensures s.id == u.id && s.name == u.name && s.image == u.image
  {
    UserSummary(u.id, u.name, u.image)
  }

  predicate HasUser(users: seq<User>, id: Id)
  {
    exists u :: u in users && u.id == id
  }

  predicate HasPost(posts: seq<Post>, id: Id)
  {
    exists p :: p in posts && p.id == id
  }

  /** `findUnique` on the user table. */
  function FindUser(users: seq<User>, id: Id): (r: Option<User>)
    ensures r.Some? <==> HasUser(users, id)
    ensures r.Some? ==> r.value in users && r.value.id == id
  {
    if users == [] then None
    else if users[0].id == id then Some(users[0])
    else FindUser(users[1..], id)
  }

  /** `findUnique` on the post table. */
  function FindPost(posts: seq<Post>, id: Id): (r: Option<Post>)
    ensures r.Some? <==> HasPost(posts, id)
    ensures r.Some? ==> r.value in posts && r.value.id == id
  {
    if posts == [] then None
    else if posts[0].id == id then Some(posts[0])
    else FindPost(posts[1..], id)
  }

  /** No two users share an id (primary key). */
  ghost predicate UniqueUserIds(users: seq<User>)
  {
    forall i, j :: 0 <= i < j < |users| ==> users[i].id != users[j].id
  }

  /** No two posts share an id (primary key). */
  ghost predicate UniquePostIds(posts: seq<Post>)
  {
    forall i, j :: 0 <= i < j < |posts| ==> posts[i].id != posts[j].id
  }

  /**
    Inserting a post whose id is new keeps the primary key, keeps every
    existing post and makes the new id present.
   */
  lemma AppendPostKeepsIds(posts: seq<Post>, p: Post)
    requires UniquePostIds(posts)
    requires !HasPost(posts, p.id)
    ensures UniquePostIds(posts + [p])
    ensures forall q :: q in posts + [p] <==> q in posts || q == p
    ensures forall id :: HasPost(posts + [p], id) <==> HasPost(posts, id) || id == p.id
  {
    var grown := posts + [p];
    forall i, j | 0 <= i < j < |grown| ensures grown[i].id != grown[j].id {
      if j == |posts| {
        assert grown[i] in posts;
      }
    }
    assert p in grown;
  }

  /** `where: { postId }` on comments. */
  function CommentOn(postId: Id): Comment -> bool
  {
    (c: Comment) => c.postId == postId
  }

  /** The comments whose `postId` is `postId`, in table order. */
  function CommentsOf(comments: seq<Comment>, postId: Id): (r: seq<Comment>)
    ensures forall c :: c in r <==> c in comments && c.postId == postId
  {
    Sorting.Filter(comments, CommentOn(postId))
  }

  /** `where: { userId }` on posts. */
  function WrittenBy(userId: Id): Post -> bool
  {
    (p: Post) => p.userId == userId
  }

  /** The posts whose author is `userId`, in table order. */
  function ByAuthor(posts: seq<Post>, userId: Id): (r: seq<Post>)
    ensures forall p :: p in r <==> p in posts && p.userId == userId
  {
    Sorting.Filter(posts, WrittenBy(userId))
  }

  /** `orderBy: { createdAt: "desc" }` on posts: `a` may come before `b`. */
  predicate NewerPost(a: Post, b: Post)
  {
    a.createdAt >= b.createdAt
  }

  lemma NewerPostTotal()
    ensures Sorting.TotalPreorder(NewerPost)
  {
  }

  /** Posts newest first. */
  function NewestFirst(posts: seq<Post>): (r: seq<Post>)
    ensures multiset(r) == multiset(posts)
    ensures Sorting.Sorted(r, NewerPost)
  {
    NewerPostTotal();
    Sorting.SortBySorted(posts, NewerPost);
    Sorting.SortBy(posts, NewerPost)
  }

  /**
    When no two posts share a creation time, newest first is the only order
    of them that is sorted by creation time: the order of ties decides nothing
    else.
   */
  lemma NewestFirstIsForced(posts: seq<Post>, other: seq<Post>)
    requires forall p, q :: p in posts && q in posts && p.createdAt == q.createdAt ==> p == q
    requires multiset(other) == multiset(posts)
    requires Sorting.Sorted(other, NewerPost)
    ensures other == NewestFirst(posts)
  {
    var r := NewestFirst(posts);
    forall x, y | x in r && y in r && NewerPost(x, y) && NewerPost(y, x) ensures x == y {
      Sorting.MultisetMember(x, r, posts);
      Sorting.MultisetMember(y, r, posts);
    }
    Sorting.SortedUnique(r, other, NewerPost);
  }
}
