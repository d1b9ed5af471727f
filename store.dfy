/**
  The shared handle to the relational store. Its tables are updated in place by
  the actions that write; `connected` is false while the store cannot be
  reached, and then every query and command fails.
 */
module Store {
  import opened Wrappers
  import opened Schema
  import JoinTable

  class Database {
    var connected: bool
    var users: seq<User>
    var posts: seq<Post>
    var likes: seq<JoinRow>
    var savedPosts: seq<JoinRow>
    var comments: seq<Comment>

    /** A join row refers to an existing user and an existing post. */
    ghost predicate RefersToRows(row: JoinRow)
      reads this
    {
      HasUser(users, row.userId) && HasPost(posts, row.postId)
    }

    /** The schema's primary keys, unique keys and foreign keys hold. */
    ghost predicate Valid()
      reads this
    {
      && UniqueUserIds(users)
      && UniquePostIds(posts)
      && (forall p :: p in posts ==> HasUser(users, p.userId))
      && JoinTable.Unique(likes)
      && (forall row :: row in likes ==> RefersToRows(row))
      && JoinTable.Unique(savedPosts)
      && (forall row :: row in savedPosts ==> RefersToRows(row))
      && (forall c :: c in comments ==> HasUser(users, c.userId) && HasPost(posts, c.postId))
    }

    /** A reachable store holding the given users and nothing else. */
    constructor (users: seq<User>)
      requires UniqueUserIds(users)
      ensures Valid()
      ensures this.connected && this.users == users
      ensures posts == [] && likes == [] && savedPosts == [] && comments == []
    {
      this.connected := true;
      this.users := users;
      this.posts := [];
      this.likes := [];
      this.savedPosts := [];
      this.comments := [];
    }
  }
}
