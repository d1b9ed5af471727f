/**
  The like actions: toggling a like of a post by a user, counting the likes of a
  post, and checking whether a user likes a post.
 */
module Likes {
  import opened Wrappers
  import opened Schema
  import opened Store
  import JoinTable

  const ToggleLikeFailed := "Could not toggle like"
  const LikeCountFailed := "Could not get like count"
  const IsLikedFailed := "Could not check if post is liked"

  /**
    `toggleLike(postId, userId)`: looks up the like of the pair; deletes it and
    returns false when it exists, creates it (at time `now`) and returns true
    otherwise. Creating a like that refers to a missing user or post violates a
    foreign key; that failure, like an unreachable store, surfaces as the one
    generic error and changes nothing.
   */
  method ToggleLike(db: Database, postId: Id, userId: Id, now: nat) returns (r: Result<bool>)
    requires db.Valid()
    modifies db
    ensures db.Valid()
    ensures db.connected == old(db.connected) && db.users == old(db.users) && db.posts == old(db.posts)
    ensures db.savedPosts == old(db.savedPosts) && db.comments == old(db.comments)
    ensures r.Err? ==> r.message == ToggleLikeFailed && db.likes == old(db.likes)
    ensures r.Err? <==> !old(db.connected)
                        || (!JoinTable.Has(old(db.likes), userId, postId)
                            && !old(db.RefersToRows(JoinRow(userId, postId, now))))
    ensures r.Ok? ==> (r.value, db.likes) == JoinTable.Toggle(old(db.likes), userId, postId, now)
    ensures r == Ok(false) ==> |db.likes| == |old(db.likes)| - 1
    ensures r == Ok(true) ==> db.likes == old(db.likes) + [JoinRow(userId, postId, now)]
    ensures r.Ok? ==> IsLikedByUser(db, postId, userId) == Ok(r.value)
  {
    if !db.connected {
      return Err(ToggleLikeFailed);
    }
    var existing := JoinTable.Find(db.likes, userId, postId);
    if existing.Some? {
      JoinTable.DeleteKeepsUnique(db.likes, userId, postId);
      JoinTable.DeleteRemovesOne(db.likes, userId, postId);
      db.likes := JoinTable.Delete(db.likes, userId, postId);
      return Ok(false);
    }
    if !(HasUser(db.users, userId) && HasPost(db.posts, postId)) {
      return Err(ToggleLikeFailed);
    }
    var row := JoinRow(userId, postId, now);
    JoinTable.AppendKeepsUnique(db.likes, row);
    db.likes := db.likes + [row];
    return Ok(true);
  }

  /** `getLikeCount(postId)`: the number of like rows of the post. */
  function GetLikeCount(db: Database, postId: Id): (r: Result<nat>)
    reads db
    ensures r.Err? <==> !db.connected
    ensures r.Err? ==> r.message == LikeCountFailed
    ensures r.Ok? ==> r.value <= |db.likes|
    ensures r.Ok? ==> (r.value == 0 <==> forall row :: row in db.likes ==> row.postId != postId)
  {
    if !db.connected then Err(LikeCountFailed)
    else Ok(JoinTable.CountForPost(db.likes, postId))
  }

  /** `isLikedByUser(postId, userId)`: whether the like of the pair exists. */
  function IsLikedByUser(db: Database, postId: Id, userId: Id): (r: Result<bool>)
    reads db
    ensures r.Err? <==> !db.connected
    ensures r.Err? ==> r.message == IsLikedFailed
    ensures r.Ok? ==> (r.value <==> exists row :: row in db.likes && row.userId == userId && row.postId == postId)
  {
    if !db.connected then Err(IsLikedFailed)
    else Ok(JoinTable.Find(db.likes, userId, postId).Some?)
  }

  /**
    The like count of a post is the number of distinct users for whom
    `isLikedByUser` answers true.
   */
  lemma LikeCountIsLikers(db: Database, postId: Id)
    requires db.Valid() && db.connected
    ensures var likers := JoinTable.Users(db.likes, postId);
            && (forall u :: u in likers <==> IsLikedByUser(db, postId, u) == Ok(true))
            && GetLikeCount(db, postId) == Ok(|likers|)
  {
    JoinTable.CountIsUsers(db.likes, postId);
  }
}
