/**
  The saved-post actions: toggling a bookmark, checking it, and listing a user's
  saved posts newest-saved first.
 */
module SavedPosts {
  import opened Wrappers
  import opened Schema
  import opened Store
  import JoinTable
  import Sorting

  const ToggleSaveFailed := "Could not toggle save"
  const IsSavedFailed := "Could not check if post is saved"
  const SavedPostsFailed := "Could not fetch saved posts"

  /**
    `toggleSavePost(postId, userId)`: deletes the saved row of the pair and
    returns false when it exists; otherwise creates it (at time `now`) and
    returns true. A missing user or post makes the create fail.
   */
  method ToggleSavePost(db: Database, postId: Id, userId: Id, now: nat) returns (r: Result<bool>)
    requires db.Valid()
    modifies db
    ensures db.Valid()
    ensures db.connected == old(db.connected) && db.users == old(db.users) && db.posts == old(db.posts)
    ensures db.likes == old(db.likes) && db.comments == old(db.comments)
    ensures r.Err? ==> r.message == ToggleSaveFailed && db.savedPosts == old(db.savedPosts)
    ensures r.Err? <==> !old(db.connected)
                        || (!JoinTable.Has(old(db.savedPosts), userId, postId)
                            && !old(db.RefersToRows(JoinRow(userId, postId, now))))
    ensures r.Ok? ==> (r.value, db.savedPosts) == JoinTable.Toggle(old(db.savedPosts), userId, postId, now)
    ensures r == Ok(false) ==> |db.savedPosts| == |old(db.savedPosts)| - 1
    ensures r == Ok(true) ==> db.savedPosts == old(db.savedPosts) + [JoinRow(userId, postId, now)]
    ensures r.Ok? ==> IsSavedByUser(db, postId, userId) == Ok(r.value)
  {
    if !db.connected {
      return Err(ToggleSaveFailed);
    }
    var existing := JoinTable.Find(db.savedPosts, userId, postId);
    if existing.Some? {
      JoinTable.DeleteKeepsUnique(db.savedPosts, userId, postId);
      JoinTable.DeleteRemovesOne(db.savedPosts, userId, postId);
      db.savedPosts := JoinTable.Delete(db.savedPosts, userId, postId);
      return Ok(false);
    }
    if !(HasUser(db.users, userId) && HasPost(db.posts, postId)) {
      return Err(ToggleSaveFailed);
    }
    var row := JoinRow(userId, postId, now);
    JoinTable.AppendKeepsUnique(db.savedPosts, row);
    db.savedPosts := db.savedPosts + [row];
    return Ok(true);
  }

  /** `isSavedByUser(postId, userId)`: whether the saved row of the pair exists. */
  function IsSavedByUser(db: Database, postId: Id, userId: Id): (r: Result<bool>)
    reads db
    ensures r.Err? <==> !db.connected
    ensures r.Err? ==> r.message == IsSavedFailed
    ensures r.Ok? ==> (r.value <==> exists row :: row in db.savedPosts && row.userId == userId && row.postId == postId)
  {
    if !db.connected then Err(IsSavedFailed)
    else Ok(JoinTable.Find(db.savedPosts, userId, postId).Some?)
  }

  /** `orderBy: { createdAt: 'desc' }` on saved rows. */
  predicate NewerSave(a: JoinRow, b: JoinRow)
  {
    a.createdAt >= b.createdAt
  }

  lemma NewerSaveTotal()
    ensures Sorting.TotalPreorder(NewerSave)
  {
  }

  /** The saved rows of `userId`, newest save first. */
  function SavesNewestFirst(saved: seq<JoinRow>, userId: Id): (r: seq<JoinRow>)
    ensures multiset(r) == multiset(JoinTable.RowsOfUser(saved, userId))
    ensures |r| == |JoinTable.RowsOfUser(saved, userId)|
    ensures Sorting.Sorted(r, NewerSave)
    ensures forall row :: row in r <==> row in saved && row.userId == userId
  {
    NewerSaveTotal();
    var mine := JoinTable.RowsOfUser(saved, userId);
    Sorting.SortBySorted(mine, NewerSave);
    var r := Sorting.SortBy(mine, NewerSave);
    forall row ensures row in r <==> row in mine {
      Sorting.MultisetMember(row, r, mine);
    }
    r
  }

  /** The saved post's own data: its author's summary, its likes and its comments. */
  ghost predicate Carries(db: Database, x: PostWith<UserSummary>)
    reads db
  {
    && x.post in db.posts
    && (exists u :: u in db.users && u.id == x.post.userId && x.user == Summary(u))
    && x.likes == JoinTable.RowsForPost(db.likes, x.post.id)
    && x.comments == CommentsOf(db.comments, x.post.id)
  }

  /**
    `include: { post: { include: { user, likes, comments } } }` for one saved
    row: absent (null) when the row's post is not found.
   */
  function IncludePost(db: Database, row: JoinRow): (r: Option<PostWith<UserSummary>>)
    reads db
    requires db.Valid()
    ensures r.None? <==> !HasPost(db.posts, row.postId)
    ensures r.Some? ==> r.value.post.id == row.postId && Carries(db, r.value)
  {
    match FindPost(db.posts, row.postId)
    case None => None
    case Some(p) =>
      var author := FindUser(db.users, p.userId).value;
      Some(PostWith(p, Summary(author), JoinTable.RowsForPost(db.likes, p.id), CommentsOf(db.comments, p.id)))
  }

  /** The rows of the `findMany`, each with its included post. */
  function IncludeAll(db: Database, rows: seq<JoinRow>): (r: seq<Option<PostWith<UserSummary>>>)
    reads db
    requires db.Valid()
    ensures |r| == |rows|
    ensures forall i :: 0 <= i < |rows| ==> r[i] == IncludePost(db, rows[i])
  {
    if rows == [] then [] else [IncludePost(db, rows[0])] + IncludeAll(db, rows[1..])
  }

  /** `.filter(save => save.post !== null).map(save => save.post)`. */
  function PresentPosts(xs: seq<Option<PostWith<UserSummary>>>): (r: seq<PostWith<UserSummary>>)
    ensures |r| <= |xs|
    ensures forall x :: x in r <==> Some(x) in xs
    ensures (forall i :: 0 <= i < |xs| ==> xs[i].Some?) ==>
              |r| == |xs| && forall i :: 0 <= i < |xs| ==> r[i] == xs[i].value
  {
    if xs == [] then []
    else if xs[0].None? then PresentPosts(xs[1..])
    else [xs[0].value] + PresentPosts(xs[1..])
  }

  /** When the saved row of (userId, postId) was created. */
  function SavedAt(db: Database, userId: Id, postId: Id): nat
    reads db
  {
    match JoinTable.Find(db.savedPosts, userId, postId)
    case None => 0
    case Some(row) => row.createdAt
  }

  /**
    `getSavedPosts(userId)`: the posts `userId` has saved, each with its own
    author, likes and comments, ordered by when they were saved, newest first.
   */
  function GetSavedPosts(db: Database, userId: Id): (r: Result<seq<PostWith<UserSummary>>>)
    reads db
    requires db.Valid()
    ensures r.Err? <==> !db.connected
    ensures r.Err? ==> r.message == SavedPostsFailed
    ensures r.Ok? ==> |r.value| == |JoinTable.RowsOfUser(db.savedPosts, userId)|
    ensures r.Ok? ==> forall x :: x in r.value ==>
                        JoinTable.Has(db.savedPosts, userId, x.post.id) && Carries(db, x)
    ensures r.Ok? ==> forall i, j :: 0 <= i < j < |r.value| ==>
                        SavedAt(db, userId, r.value[i].post.id) >= SavedAt(db, userId, r.value[j].post.id)
  {
    if !db.connected then Err(SavedPostsFailed)
    else
      var rows := SavesNewestFirst(db.savedPosts, userId);
      var included := IncludeAll(db, rows);
      var r := PresentPosts(included);
      ListingFollowsRows(db, userId, rows, included, r);
      Ok(r)
  }

  /** A saved row is what `findUnique` returns for its own key. */
  lemma {:induction false} FindsOwnRow(t: seq<JoinRow>, row: JoinRow)
    requires JoinTable.Unique(t)
    requires row in t
    ensures JoinTable.Find(t, row.userId, row.postId) == Some(row)
  {
    if t[0] != row {
      assert t == [t[0]] + t[1..];
      assert row in t[1..];
      FindsOwnRow(t[1..], row);
    }
  }

  /** Under the foreign keys every saved row finds its post. */
  lemma RowsResolve(db: Database, rows: seq<JoinRow>)
    requires db.Valid()
    requires forall row :: row in rows ==> row in db.savedPosts
    ensures forall i :: 0 <= i < |rows| ==> IncludeAll(db, rows)[i].Some?
  {
    forall i | 0 <= i < |rows| ensures IncludeAll(db, rows)[i].Some? {
      assert rows[i] in rows;
      assert db.RefersToRows(rows[i]);
    }
  }

  lemma ListingFollowsRows(db: Database, userId: Id, rows: seq<JoinRow>,
                           included: seq<Option<PostWith<UserSummary>>>, r: seq<PostWith<UserSummary>>)
    requires db.Valid()
    requires rows == SavesNewestFirst(db.savedPosts, userId)
    requires included == IncludeAll(db, rows) && r == PresentPosts(included)
    ensures |r| == |rows| == |JoinTable.RowsOfUser(db.savedPosts, userId)|
    ensures forall i :: 0 <= i < |r| ==> r[i].post.id == rows[i].postId
    ensures forall x :: x in r ==> JoinTable.Has(db.savedPosts, userId, x.post.id) && Carries(db, x)
    ensures forall i, j :: 0 <= i < j < |r| ==>
              SavedAt(db, userId, r[i].post.id) >= SavedAt(db, userId, r[j].post.id)
  {
    RowsResolve(db, rows);
    ListingOrder(db, userId, rows, r);
    forall x | x in r ensures JoinTable.Has(db.savedPosts, userId, x.post.id) && Carries(db, x) {
      var i :| 0 <= i < |r| && r[i] == x;
      assert rows[i] in rows;
    }
  }

  lemma ListingOrder(db: Database, userId: Id, rows: seq<JoinRow>, r: seq<PostWith<UserSummary>>)
    requires JoinTable.Unique(db.savedPosts)
    requires Sorting.Sorted(rows, NewerSave)
    requires forall row :: row in rows ==> row in db.savedPosts && row.userId == userId
    requires |r| == |rows| && forall i :: 0 <= i < |r| ==> r[i].post.id == rows[i].postId
    ensures forall i, j :: 0 <= i < j < |r| ==>
              SavedAt(db, userId, r[i].post.id) >= SavedAt(db, userId, r[j].post.id)
  {
    forall i | 0 <= i < |r| ensures SavedAt(db, userId, r[i].post.id) == rows[i].createdAt {
      assert rows[i] in rows;
      FindsOwnRow(db.savedPosts, rows[i]);
    }
  }

  /** The ids of the posts of saved rows, in row order. */
  function RowPostIds(rows: seq<JoinRow>): (ids: seq<Id>)
    ensures |ids| == |rows|
    ensures forall i :: 0 <= i < |rows| ==> ids[i] == rows[i].postId
  {
    seq(|rows|, i requires 0 <= i < |rows| => rows[i].postId)
  }

  lemma {:induction false} IdCountIsRowCount(rows: seq<JoinRow>, postId: Id)
    ensures multiset(RowPostIds(rows))[postId] == |JoinTable.RowsForPost(rows, postId)|
  {
    if rows != [] {
      IdCountIsRowCount(rows[1..], postId);
      assert RowPostIds(rows) == [rows[0].postId] + RowPostIds(rows[1..]);
    }
  }

  /**
    A post appears in `getSavedPosts(userId)` exactly once when `isSavedByUser`
    answers true for it, and not at all otherwise.
   */
  lemma SavedListingMatchesFlag(db: Database, userId: Id, postId: Id)
    requires db.Valid() && db.connected
    ensures multiset(PostIds(GetSavedPosts(db, userId).value))[postId]
         == if IsSavedByUser(db, postId, userId) == Ok(true) then 1 else 0
  {
    var rows := SavesNewestFirst(db.savedPosts, userId);
    var included := IncludeAll(db, rows);
    var r := PresentPosts(included);
    ListingFollowsRows(db, userId, rows, included, r);
    assert PostIds(r) == RowPostIds(rows);
    IdCountIsRowCount(rows, postId);
    NewerSaveTotal();
    var mine := JoinTable.RowsOfUser(db.savedPosts, userId);
    assert rows == Sorting.SortBy(mine, NewerSave);
    Sorting.FilterSortBy(mine, NewerSave, JoinTable.OnPost(postId));
    JoinTable.OneRowPerPair(db.savedPosts, userId, postId);
  }

  /**
    A click on the bookmark followed by opening the saved list: after
    `toggleSavePost` reports true the post is listed exactly once among the
    user's saved posts; after it reports false the post is not listed.
   */
  method ToggleThenList(db: Database, postId: Id, userId: Id, now: nat)
      returns (toggled: Result<bool>, listed: Result<seq<PostWith<UserSummary>>>)
    requires db.Valid()
    modifies db
    ensures db.Valid()
    ensures listed.Err? <==> !old(db.connected)
    ensures toggled == Ok(true) ==> listed.Ok? && multiset(PostIds(listed.value))[postId] == 1
    ensures toggled == Ok(false) ==> listed.Ok? && postId !in PostIds(listed.value)
  {
    toggled := ToggleSavePost(db, postId, userId, now);
    listed := GetSavedPosts(db, userId);
    if listed.Ok? {
      SavedListingMatchesFlag(db, userId, postId);
    }
  }
}
