# ZoskaGram core in Dafny

ZoskaGram is a small photo-sharing site. This project models its server
actions and its bottom navigation bar:

- **Likes** (`src/app/actions/likes.ts`): `toggleLike`, `getLikeCount` and
  `isLikedByUser` over the like table. That table is keyed by the pair
  (userId, postId).
- **Saved posts** (`src/app/actions/savedPosts.ts`): `toggleSavePost`,
  `isSavedByUser` and `getSavedPosts`. The last one lists a user's saved posts,
  newest save first, each with its author summary, likes and comments.
- **Posts** (`src/app/actions/posts.ts`): `fetchPosts`, `fetchPostsByUserId`
  and `createPost`. Each post is joined with its author, likes and comments.
- **Users** (`src/app/actions/users.ts`): `searchUsers` and
  `fetchUserProfile`.
  - `searchUsers` skips the name filter for a blank term. Otherwise it matches
    the untrimmed term case-insensitively. It then sorts by name and keeps at
    most 20.
  - `fetchUserProfile` fails in one generic way for a missing user and for an
    unreachable store alike.
- **Navigation bar** (`src/components/NavBar.tsx`):
  - the tab list chosen by session status;
  - the guard that sends a visitor without a session to registration;
  - the profile menu;
  - the avatar's fallback letter.

The store is the class `Store.Database`:

- Its tables are sequences, which the writing actions update in place.
- `connected` is false while the store cannot be reached; then every action
  fails with its own generic message.
- `Valid()` holds the schema's keys: unique user and post ids, the compound
  unique key of the like and saved-post tables, and the foreign keys.

The like and saved-post tables share the module `JoinTable`. Its function
`Toggle` is the transition both toggles make; the methods `Likes.ToggleLike`
and `SavedPosts.ToggleSavePost` are proved to make exactly that transition.
`ORDER BY` is a stable insertion sort over a total preorder (`Sorting.SortBy`).
Filtering and sorting are proved to commute, so one author's feed is the
author-filtered feed.

The navigation bar is the class `NavBar.Navbar`:

- The fields `value` and `anchorEl` mirror the component's state.
- `effects` records each `router.push` and `signOut` in the order they are
  issued.
- The session and its status are parameters.

Clock readings (`createdAt`) are natural numbers passed in as `now`. Ids the
store generates are parameters too.

A user's `name` is nullable. A user whose name is null matches no non-blank
search term. In name order, such users come after everyone named, because
PostgreSQL puts nulls last in ascending order. A post's `user` is the author's
own columns (`Schema.UserRow`), without the profile; search results and the
profile page carry the profile.

Some behaviour of the code as written is stated as lemmas:

- The search term is matched as typed: `"ana "` does not find `"Ana"`
  (`Users.LongerTermMissesName`).
- The bar picks its tabs by `status`, but the guard tests `session`. With an
  authenticated status and no session object, the search and create tabs would
  be shown yet lead to registration (`NavBar.GuardIgnoresStatus`). next-auth's
  `useSession` does not report `"authenticated"` without a session, so this
  state does not arise in practice. The lemma shows that the two checks are
  independent, so the guard alone is what keeps a visitor without a session
  out.

## Model

| member | source | states |
|---|---|---|
| Schema.FindUser | src/app/actions/users.ts:32-35 | `findUnique` by id finds a user exactly when one with that id exists, and returns a user of the table with that id |
| Schema.NewestFirst | src/app/actions/posts.ts:21 | `orderBy: { createdAt: "desc" }` yields a permutation of the posts sorted newest first |
| Schema.NewestFirstIsForced | src/app/actions/posts.ts:21 | when no two posts share a creation time, any newest-first permutation of them is exactly the one the model returns |
| Schema.ByAuthor | src/app/actions/posts.ts:40 | `where: { userId }` keeps exactly the posts of that author |
| Sorting.SortBy | src/app/actions/posts.ts:21 | sorting yields a permutation of its input (same multiset, same length) |
| Sorting.SortBySorted | src/app/actions/posts.ts:21 | the result of sorting by a total preorder is ordered by it |
| Sorting.FilterSortBy | src/app/actions/posts.ts:39-47 | filtering a sorted sequence equals sorting the filtered sequence |
| Sorting.SortedUnique | src/app/actions/posts.ts:21 | two permutations sorted by the same order are equal when no two different elements rank equal |
| Sorting.TakeOmitsNothingEarlier | src/app/actions/users.ts:17-20 | `take` on an ordered list omits no element that sorts strictly before a kept one |
| JoinTable.Find | src/app/actions/likes.ts:8-15 | `findUnique` on (userId, postId) returns a row of that pair exactly when one exists |
| JoinTable.Delete | src/app/actions/likes.ts:19-26 | `delete` on the pair removes its rows and leaves every other pair present or absent as before |
| JoinTable.Toggle | src/app/actions/likes.ts:17-37 | the toggle reports the pair's new presence, which is the negation of its old presence; all other pairs are unchanged |
| JoinTable.ToggleKeepsUnique | src/app/actions/likes.ts:8-36 | a toggle preserves "at most one row per (userId, postId)" |
| JoinTable.DeleteKeepsUnique | src/app/actions/likes.ts:19-26 | deleting a pair preserves the unique key |
| JoinTable.AppendKeepsUnique | src/app/actions/likes.ts:30-35 | creating a row for an absent pair preserves the unique key |
| JoinTable.DeleteRemovesOne | src/app/actions/likes.ts:17-27 | under the unique key, deleting a present pair removes exactly one row |
| JoinTable.DeleteAppended | src/app/actions/likes.ts:16-37 | deleting the row just created restores the table exactly |
| JoinTable.ToggleTwice | src/app/actions/likes.ts:16-37 | two toggles report opposite results and restore every pair's presence; from an absent pair they restore the table exactly |
| JoinTable.ToggleParity | src/app/actions/likes.ts:16-37 | after n toggles the pair is present exactly when it was present before and n is even (results alternate) |
| JoinTable.CountForPost | src/app/actions/likes.ts:46-50 | `count({ where: { postId } })` is at most the table size and is zero exactly when no row is for the post |
| JoinTable.Users | src/app/actions/likes.ts:58-68 | the users with a row for a post are exactly those for whom the pair is present |
| JoinTable.CountIsUsers | src/app/actions/likes.ts:46-50 | under the unique key, the row count of a post equals the number of distinct users with a row for it |
| JoinTable.OneRowPerPair | src/app/actions/savedPosts.ts:62-65 | under the unique key, a user's rows include one row for a post when the pair is present and none otherwise |
| Likes.ToggleLike | src/app/actions/likes.ts:6-42 | present like: deleted and `false` (table one row shorter); absent like: one row appended and `true`; the result equals `isLikedByUser` afterwards; the unique key and the other tables are kept; an unreachable store or a broken foreign key fails with "Could not toggle like" and changes nothing |
| Likes.GetLikeCount | src/app/actions/likes.ts:44-56 | the count is zero exactly when no like is for the post and never exceeds the table; failure gives "Could not get like count" |
| Likes.IsLikedByUser | src/app/actions/likes.ts:58-73 | true exactly when a like row of the pair exists; failure gives "Could not check if post is liked" |
| Likes.LikeCountIsLikers | src/app/actions/likes.ts:46-50 | `getLikeCount` equals the number of users for whom `isLikedByUser` answers true |
| SavedPosts.ToggleSavePost | src/app/actions/savedPosts.ts:5-41 | the same transition as the like toggle on the saved-post table: delete and `false`, or append and `true`; the result equals `isSavedByUser` afterwards; failure gives "Could not toggle save" and changes nothing |
| SavedPosts.IsSavedByUser | src/app/actions/savedPosts.ts:43-58 | true exactly when a saved row of the pair exists; failure gives "Could not check if post is saved" |
| SavedPosts.SavesNewestFirst | src/app/actions/savedPosts.ts:62-84 | the user's saved rows, as a permutation ordered by save time descending, containing exactly that user's rows |
| SavedPosts.IncludePost | src/app/actions/savedPosts.ts:66-80 | the included post is null exactly when no post has the row's id; otherwise it is that post with its author summary, likes and comments |
| SavedPosts.IncludeAll | src/app/actions/savedPosts.ts:62-84 | one included post per saved row, in row order |
| SavedPosts.PresentPosts | src/app/actions/savedPosts.ts:87-94 | dropping null posts keeps exactly the present ones, is never longer than its input, and keeps everything in order when nothing is null |
| SavedPosts.GetSavedPosts | src/app/actions/savedPosts.ts:60-99 | one entry per saved row of the user, each saved by that user and carrying the post's own author, likes and comments, ordered by save time newest first; failure gives "Could not fetch saved posts" |
| SavedPosts.FindsOwnRow | src/app/actions/savedPosts.ts:7-14 | under the unique key, `findUnique` on a row's key returns that row |
| SavedPosts.RowsResolve | src/app/actions/savedPosts.ts:87-88 | under the foreign keys, no saved row's post is null |
| SavedPosts.ListingFollowsRows | src/app/actions/savedPosts.ts:62-94 | the listing follows the sorted saved rows one for one |
| SavedPosts.ListingOrder | src/app/actions/savedPosts.ts:81-83 | the listing is ordered by each post's save time, newest first |
| SavedPosts.IdCountIsRowCount | src/app/actions/savedPosts.ts:89-94 | a post id occurs in the listing's ids as often as there are rows for that post |
| SavedPosts.SavedListingMatchesFlag | src/app/actions/savedPosts.ts:43-99 | a post occurs in `getSavedPosts` once when `isSavedByUser` is true and never otherwise |
| SavedPosts.ToggleThenList | src/app/actions/savedPosts.ts:5-99 | a toggle followed by a listing: after the toggle reports true the post is listed exactly once, after it reports false it is not listed; the listing fails exactly when the store is unreachable |
| Posts.Join | src/app/actions/posts.ts:22-26 | a joined post carries its author's own columns (no profile) and exactly the likes and comments of that post, in table order |
| Posts.JoinAll | src/app/actions/posts.ts:20-27 | one joined post per post, position by position |
| Posts.JoinAllKeepsPosts | src/app/actions/posts.ts:20-27 | joining keeps the posts and their order, and every result carries its author, likes and comments |
| Posts.FetchPosts | src/app/actions/posts.ts:18-34 | every post exactly once, newest first, each joined; failure gives "Could not fetch posts" |
| Posts.FetchPostsByUserId | src/app/actions/posts.ts:37-54 | exactly the author's posts, newest first, each joined; failure gives "Could not fetch posts" |
| Posts.JoinAllByAuthor | src/app/actions/posts.ts:39-47 | joining and filtering by author commute |
| Posts.ByUserIsFeedFiltered | src/app/actions/posts.ts:18-54 | `fetchPostsByUserId(u)` is the u-filtered subsequence of `fetchPosts`, in the same order |
| Posts.FeedLikesMatchCount | src/app/actions/posts.ts:22-26 | each feed post's `likes.length` equals `getLikeCount` for it |
| Posts.FreshPostIsBare | src/app/actions/posts.ts:65-70 | a post id that no post has yet has no likes and no comments |
| Posts.NewestPostHeadsAuthorFeed | src/app/actions/posts.ts:39-47 | a post newer than every other heads its author's feed and occurs there once |
| Posts.CreatePost | src/app/actions/posts.ts:57-77 | appends exactly one post with the given author, image and caption and leaves the rest unchanged; returns it with its author and empty likes and comments; when it is the newest it heads the author's feed; an unknown author, taken id or unreachable store adds nothing and gives "Could not create post" |
| Text.TrimStart | src/app/actions/users.ts:8 | removes exactly the leading trimmable characters |
| Text.TrimEnd | src/app/actions/users.ts:8 | removes exactly the trailing trimmable characters |
| Text.BlankTrimsAway | src/app/actions/users.ts:8 | trimming removes all of a string made only of trimmable characters |
| Text.KeptCharSurvivesTrim | src/app/actions/users.ts:8 | a string with a character trimming keeps does not trim to the empty string |
| Text.TrimEmptyIffBlank | src/app/actions/users.ts:8 | `term.trim()` is empty exactly when every character of the term is trimmable |
| Text.MatchesItself | src/app/actions/users.ts:10-11 | a name is found by itself written in any letter case |
| Text.LongerNeverContained | src/app/actions/users.ts:10-11 | a term longer than a name is never contained in it |
| Text.LexLeTotal | src/app/actions/users.ts:17-19 | any two names are ordered one way or the other |
| Text.LexLeTrans | src/app/actions/users.ts:17-19 | the name order is transitive |
| Users.ByNameTotal | src/app/actions/users.ts:17-19 | ordering users by name, with null names last, is a total preorder |
| Users.Candidates | src/app/actions/users.ts:8-13 | a blank term admits every user; otherwise exactly the users whose name is present and contains the untrimmed term, ignoring case |
| Users.SearchUsers | src/app/actions/users.ts:5-28 | at most 20 admitted users (exactly min(20, admitted)), sorted by name, each a user of the table matching a non-blank term; no admitted user sorting before a returned one is omitted; failure gives "Could not search users" |
| Users.BlankTermListsEveryone | src/app/actions/users.ts:8-13 | a whitespace-only term searches exactly like the empty term |
| Users.FoldKeepsBlankness | src/app/actions/users.ts:8-11 | terms equal up to letter case are blank together |
| Users.SearchIgnoresCase | src/app/actions/users.ts:8-13 | two terms differing only in letter case give the same result |
| Users.NoMatchIsEmpty | src/app/actions/users.ts:7-23 | a non-blank term that matches no name gives the empty list, not an error |
| Users.LongerTermMissesName | src/app/actions/users.ts:8-12 | the untrimmed term is matched as typed: a non-blank term longer than a user's name never returns that user |
| Users.NamelessNeedsBlankTerm | src/app/actions/users.ts:8-13 | a user whose name is null is returned only for a blank term |
| Users.NamelessUsersComeLast | src/app/actions/users.ts:17-19 | in a search result every user with a null name comes after every user with a name |
| Users.FetchUserProfile | src/app/actions/users.ts:30-55 | succeeds exactly for an existing user of a reachable store, with or without a profile; returns that user and their posts newest first; not-found and store failure give the same "Could not fetch user profile" |
| Users.ProfilePostsMatchFeed | src/app/actions/users.ts:38-42 | the profile's posts are the author's feed, in the same order |
| NavBar.Destination | src/components/NavBar.tsx:60-64 | the pushed route is the requested path exactly when there is a session or the path is public, otherwise the registration page; without a session it is always public |
| NavBar.NavigationPaths | src/components/NavBar.tsx:67-99 | four tabs starting with Domov; the profile tab is shown exactly when the status is authenticated; otherwise every tab is public |
| NavBar.AvatarFallback | src/components/NavBar.tsx:93 | one character: the first of the session user's name, or "U" when the name is missing or empty |
| NavBar.ShownSignedOutTabsPass | src/components/NavBar.tsx:60-72 | every tab shown while not authenticated passes the guard without a session |
| NavBar.GuardIgnoresStatus | src/components/NavBar.tsx:60 | the search and create tabs shown for an authenticated status redirect to registration when no session object exists |
| NavBar.Navbar.constructor | src/components/NavBar.tsx:30-31 | the selected tab starts at "/", the menu closed, nothing pushed |
| NavBar.Navbar.HandleProfileMenuOpen | src/components/NavBar.tsx:36-39 | the menu is anchored to the clicked element and open; nothing else changes |
| NavBar.Navbar.HandleProfileMenuClose | src/components/NavBar.tsx:41-43 | the menu is closed; nothing else changes |
| NavBar.Navbar.HandleProfileOption | src/components/NavBar.tsx:45-52 | always closes the menu; "profile" pushes /profile, "logout" signs out to "/", any other option only closes |
| NavBar.Navbar.HandleNavigation | src/components/NavBar.tsx:54-65 | "/profile" changes nothing; any other path becomes the selected tab even when redirected, and exactly one push of the guarded destination is recorded, always public without a session |

## Left out

- PostgreSQL and Prisma themselves. The tables are sequences, and `findUnique`,
  `create`, `delete`, `count` and `findMany` are the corresponding sequence
  operations.
- A failure of the store is modelled only as the `connected` flag, fixed for
  the duration of an action.
- The read-then-write race in the two toggles: each action is one sequential
  step, and concurrent requests are not modelled.
- Logging is not modelled: the `console.error` calls in the actions and the
  `console.log` in `handleNavigation` (src/components/NavBar.tsx:55). Only the
  thrown message is kept.
- Wall-clock time: `createdAt` is a natural number passed in as `now`.
- Ids generated by the store: `Posts.CreatePost` takes the new id as a
  parameter and fails when it is taken.
- Users.SearchUsers: names are ordered by code point and `mode: 'insensitive'`
  folds only ASCII letters, because the database collation and full Unicode
  case folding are outside the model.
- Sorting.SortBy: rows with equal keys keep table order, a choice the database
  does not promise. Some contracts rely on that choice:
  `Posts.ByUserIsFeedFiltered` and `Users.ProfilePostsMatchFeed` state equal
  orders for posts with equal `createdAt`, and `SavedPosts.GetSavedPosts`
  orders saves with equal `createdAt` by table order. They are promised only
  for this tie order. `Schema.NewestFirstIsForced` shows that the order is the
  only newest-first order when creation times differ.
- Posts.Join and SavedPosts.IncludePost: the included `likes` and `comments`
  are listed in table order. Prisma does not promise an order for an include
  without `orderBy`, so only their contents are the source's promise.
- SavedPosts.GetSavedPosts and Posts.FetchPosts require `db.Valid()`: the
  database enforces the foreign keys, so a saved row whose post is null does
  not arise. The null filter itself is modelled by `SavedPosts.PresentPosts`.
- User creation time, email verification and every other column no action
  reads are left out.
- A user's `updateUserProfile` and `getUserIdByEmail` are not defined in the
  users action file, so they are not part of this model.
- The `addComment` action is not part of this model. Comments are only read,
  through the post joins.
- NavBar.AvatarFallback: `charAt(0)` returns a UTF-16 code unit; the model
  takes the first Unicode scalar value, because strings here are sequences of
  characters.
- Rendering is not modelled: icons, labels' styling, the theme toggle, the
  menu's placement.
- `event.preventDefault()` in the menu handler is not modelled.
- The next-auth session hook and the Next.js router are not modelled: the
  session is a parameter and the router calls are recorded effects.
- Pages and views other than the navigation bar are rendering and data
  fetching around these actions, and are not modelled.
