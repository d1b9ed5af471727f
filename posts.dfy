/**
  The post feed: every post newest first, one author's posts newest first, and
  creating a post. Every returned post carries its author, its likes and its
  comments.
 */
module Posts {
  import opened Wrappers
  import opened Schema
  import opened Store
  import JoinTable
  import Sorting
  import Likes

  const FetchPostsFailed := "Could not fetch posts"
  const CreatePostFailed := "Could not create post"

  /** `x` carries its post's author and exactly the likes and comments of that post. */
  ghost predicate Joined(db: Database, x: PostWith<UserRow>)
    reads db
  {
    && (exists u :: u in db.users && u.id == x.post.userId && x.user == Columns(u))
    && x.likes == JoinTable.RowsForPost(db.likes, x.post.id)
    && x.comments == CommentsOf(db.comments, x.post.id)
  }

  /** `include: { user: true, likes: true, comments: true }` for one post. */
  function Join(db: Database, p: Post): (x: PostWith<UserRow>)
    reads db
    requires HasUser(db.users, p.userId)
    ensures x.post == p && Joined(db, x)
  {
    PostWith(p, Columns(FindUser(db.users, p.userId).value), JoinTable.RowsForPost(db.likes, p.id), CommentsOf(db.comments, p.id))
  }

  /** Each post of `ps`, joined, in the same order. */
  function JoinAll(db: Database, ps: seq<Post>): (r: seq<PostWith<UserRow>>)
    reads db
    requires forall i :: 0 <= i < |ps| ==> HasUser(db.users, ps[i].userId)
    ensures |r| == |ps|
    ensures forall i :: 0 <= i < |ps| ==> r[i] == Join(db, ps[i])
  {
    if ps == [] then []
    else
      var tail := JoinAll(db, ps[1..]);
      var r := [Join(db, ps[0])] + tail;
      r
  }

  /** Joining keeps the posts, in order, and joins every one of them. */
  lemma JoinAllKeepsPosts(db: Database, ps: seq<Post>)
    requires forall i :: 0 <= i < |ps| ==> HasUser(db.users, ps[i].userId)
    ensures PostsIn(JoinAll(db, ps)) == ps
    ensures forall x :: x in JoinAll(db, ps) ==> Joined(db, x)
  {
    var r := JoinAll(db, ps);
    forall i | 0 <= i < |ps| ensures r[i].post == ps[i] && Joined(db, r[i]) {
    }
  }

  /** `fetchPosts()`: every post, newest first. */
  function FetchPosts(db: Database): (r: Result<seq<PostWith<UserRow>>>)
    reads db
    requires db.Valid()
    ensures r.Err? <==> !db.connected
    ensures r.Err? ==> r.message == FetchPostsFailed
    ensures r.Ok? ==> multiset(PostsIn(r.value)) == multiset(db.posts)
    ensures r.Ok? ==> Sorting.Sorted(PostsIn(r.value), NewerPost)
    ensures r.Ok? ==> forall x :: x in r.value ==> Joined(db, x)
  {
    if !db.connected then Err(FetchPostsFailed)
    else
      var ps := NewestFirst(db.posts);
      forall p | p in ps ensures HasUser(db.users, p.userId) {
        Sorting.MultisetMember(p, ps, db.posts);
      }
      JoinAllKeepsPosts(db, ps);
      Ok(JoinAll(db, ps))
  }

  /** `fetchPostsByUserId(userId)`: the posts of one author, newest first. */
  function FetchPostsByUserId(db: Database, userId: Id): (r: Result<seq<PostWith<UserRow>>>)
    reads db
    requires db.Valid()
    ensures r.Err? <==> !db.connected
    ensures r.Err? ==> r.message == FetchPostsFailed
    ensures r.Ok? ==> multiset(PostsIn(r.value)) == multiset(ByAuthor(db.posts, userId))
    ensures r.Ok? ==> Sorting.Sorted(PostsIn(r.value), NewerPost)
    ensures r.Ok? ==> forall x :: x in r.value ==> x.post.userId == userId && Joined(db, x)
  {
    if !db.connected then Err(FetchPostsFailed)
    else
      var ps := NewestFirst(ByAuthor(db.posts, userId));
      forall p | p in ps ensures p in db.posts && p.userId == userId {
        Sorting.MultisetMember(p, ps, ByAuthor(db.posts, userId));
      }
      JoinAllKeepsPosts(db, ps);
      Ok(JoinAll(db, ps))
  }

  /** `where: { userId }` applied to joined posts. */
  function JoinedBy(userId: Id): PostWith<UserRow> -> bool
  {
    (x: PostWith<UserRow>) => x.post.userId == userId
  }

  /** Joining and filtering by author commute. */
  lemma {:induction false} JoinAllByAuthor(db: Database, ps: seq<Post>, userId: Id)
    requires forall p :: p in ps ==> HasUser(db.users, p.userId)
    ensures JoinAll(db, Sorting.Filter(ps, WrittenBy(userId)))
         == Sorting.Filter(JoinAll(db, ps), JoinedBy(userId))
  {
    if ps != [] {
      JoinAllByAuthor(db, ps[1..], userId);
      var j := JoinAll(db, ps);
      assert j == [Join(db, ps[0])] + JoinAll(db, ps[1..]);
      Sorting.FilterCons(Join(db, ps[0]), JoinAll(db, ps[1..]), JoinedBy(userId));
    }
  }

  /**
    The posts of one author are exactly the author-filtered subsequence of the
    whole feed, in the same order.
   */
  lemma ByUserIsFeedFiltered(db: Database, userId: Id)
    requires db.Valid() && db.connected
    ensures FetchPostsByUserId(db, userId).value == Sorting.Filter(FetchPosts(db).value, JoinedBy(userId))
  {
    NewerPostTotal();
    Sorting.FilterSortBy(db.posts, NewerPost, WrittenBy(userId));
    var ps := NewestFirst(db.posts);
    forall p | p in ps ensures HasUser(db.users, p.userId) {
      Sorting.MultisetMember(p, ps, db.posts);
    }
    JoinAllByAuthor(db, ps, userId);
  }

  /**
    The likes carried by every post of the feed number exactly what
    `getLikeCount` reports for that post.
   */
  lemma FeedLikesMatchCount(db: Database)
    requires db.Valid() && db.connected
    ensures forall x :: x in FetchPosts(db).value ==> Likes.GetLikeCount(db, x.post.id) == Ok(|x.likes|)
  {
  }

  /** A post id that no post has yet has no likes and no comments. */
  lemma FreshPostIsBare(db: Database, id: Id)
    requires db.Valid()
    requires !HasPost(db.posts, id)
    ensures JoinTable.RowsForPost(db.likes, id) == []
    ensures CommentsOf(db.comments, id) == []
  {
    forall row | row in db.likes ensures JoinTable.OnPost(id)(row) == false {
      assert db.RefersToRows(row);
    }
    forall c | c in db.comments ensures CommentOn(id)(c) == false {
    }
  }

  /** Under unique ids a post occurs once in its table. */
  lemma {:induction false} PostOccursOnce(posts: seq<Post>, p: Post)
    requires UniquePostIds(posts)
    requires p in posts
    ensures multiset(posts)[p] == 1
  {
    assert posts == [posts[0]] + posts[1..];
    if posts[0] == p {
      forall j | 0 <= j < |posts[1..]| ensures posts[1..][j] != p {
        assert posts[0].id != posts[j + 1].id;
      }
      assert multiset(posts[1..])[p] == 0;
    } else {
      PostOccursOnce(posts[1..], p);
    }
  }

  /**
    A post created after every other post heads its author's feed and occurs
    there exactly once.
   */
  lemma NewestPostHeadsAuthorFeed(db: Database, p: Post)
    requires db.Valid() && db.connected
    requires p in db.posts
    requires forall q :: q in db.posts && q != p ==> q.createdAt < p.createdAt
    ensures var feed := FetchPostsByUserId(db, p.userId).value;
            && feed != [] && feed[0].post == p
            && multiset(PostsIn(feed))[p] == 1
  {
    var feed := FetchPostsByUserId(db, p.userId).value;
    var ps := PostsIn(feed);
    var mine := ByAuthor(db.posts, p.userId);
    PostOccursOnce(db.posts, p);
    Sorting.FilterMultiset(db.posts, WrittenBy(p.userId), p);
    assert multiset(ps)[p] == 1;
    assert p in ps;
    Sorting.MultisetMember(ps[0], ps, mine);
    var k :| 0 <= k < |ps| && ps[k] == p;
    assert k == 0 || NewerPost(ps[0], ps[k]);
  }

  /**
    `createPost(userId, imageUrl, caption)`: inserts the post with the given
    id (generated by the store) and time, and returns it with its author and
    empty likes and comments. An unknown author (a foreign key violation), a
    taken id or an unreachable store adds nothing and surfaces as the one
    generic error.
   */
  method CreatePost(db: Database, id: Id, userId: Id, imageUrl: string, caption: Option<string>, now: nat)
    returns (r: Result<PostWith<UserRow>>)
    requires db.Valid()
    modifies db
    ensures db.Valid()
    ensures db.connected == old(db.connected) && db.users == old(db.users) && db.likes == old(db.likes)
    ensures db.savedPosts == old(db.savedPosts) && db.comments == old(db.comments)
    ensures r.Err? ==> r.message == CreatePostFailed && db.posts == old(db.posts)
    ensures r.Ok? <==> old(db.connected) && HasUser(old(db.users), userId) && !HasPost(old(db.posts), id)
    ensures r.Ok? ==> db.posts == old(db.posts) + [Post(id, userId, imageUrl, caption, now)]
    ensures r.Ok? ==> r.value.post == Post(id, userId, imageUrl, caption, now)
    ensures r.Ok? ==> r.value.user.id == userId
    ensures r.Ok? ==> r.value.likes == [] && r.value.comments == []
    ensures r.Ok? ==> Joined(db, r.value)
    ensures r.Ok? && (forall q :: q in old(db.posts) ==> q.createdAt < now) ==>
              FetchPostsByUserId(db, userId).value[0] == r.value
  {
    if !db.connected || !HasUser(db.users, userId) || FindPost(db.posts, id).Some? {
      return Err(CreatePostFailed);
    }
    var p := Post(id, userId, imageUrl, caption, now);
    FreshPostIsBare(db, id);
    AppendPostKeepsIds(db.posts, p);
    ghost var before := db.posts;
    db.posts := db.posts + [p];
    r := Ok(Join(db, p));
    if forall q :: q in before ==> q.createdAt < now {
      NewestPostHeadsAuthorFeed(db, p);
    }
  }
}
