/**
  The user directory: searching users by name, and loading one user with their
  posts for the profile page.
 */
module Users {
  import opened Wrappers
  import opened Schema
  import opened Store
  import opened Text
  import Sorting
  import Posts

  const SearchUsersFailed := "Could not search users"
  const FetchProfileFailed := "Could not fetch user profile"

  /** `take: 20`: the most users a search returns. */
  const SearchLimit: nat := 20

  /**
    `orderBy: { name: "asc" }`: `a` may come before `b`. Present names are in
    ascending order and a null name sorts after every present one, as
    PostgreSQL orders nulls last in ascending order.
   */
  predicate ByName(a: User, b: User)
  {
    match a.name
    case None => b.name.None?
    case Some(x) => b.name.None? || LexLe(x, b.name.value)
  }

  lemma ByNameTotal()
    ensures Sorting.TotalPreorder(ByName)
  {
    forall a: User, b: User ensures ByName(a, b) || ByName(b, a) {
      if a.name.Some? && b.name.Some? {
        LexLeTotal(a.name.value, b.name.value);
      }
    }
    forall a: User, b: User, c: User | ByName(a, b) && ByName(b, c) ensures ByName(a, c) {
      if a.name.Some? && b.name.Some? && c.name.Some? {
        LexLeTrans(a.name.value, b.name.value, c.name.value);
      }
    }
  }

  /**
    `name: { contains: term, mode: "insensitive" }`: the name is present and
    contains the term, ignoring case. A null name never matches.
   */
  predicate NameContains(u: User, term: string)
  {
    u.name.Some? && ContainsInsensitive(u.name.value, term)
  }

  /** The same filter as a predicate on users, given the folded term. */
  function NameMatches(foldedTerm: string): User -> bool
  {
    (u: User) => u.name.Some? && Contains(Fold(u.name.value), foldedTerm)
  }

  /**
    The users the `where` clause admits: everyone when the trimmed term is
    empty, otherwise those whose name contains the term as typed (untrimmed),
    ignoring case.
   */
  function Candidates(users: seq<User>, term: string): (r: seq<User>)
    ensures |r| <= |users|
    ensures forall u :: u in r <==> u in users && (Trim(term) != [] ==> NameContains(u, term))
  {
    if Trim(term) == [] then users else Sorting.Filter(users, NameMatches(Fold(term)))
  }

  /**
    `searchUsers(term)`: at most `SearchLimit` of the admitted users, in name
    order, and never one that is left out while a user after it in that order
    is returned.
   */
  function SearchUsers(db: Database, term: string): (r: Result<seq<User>>)
    reads db
    ensures r.Err? <==> !db.connected
    ensures r.Err? ==> r.message == SearchUsersFailed
    ensures r.Ok? ==> var admitted := Candidates(db.users, term);
              |r.value| == if |admitted| < SearchLimit then |admitted| else SearchLimit
    ensures r.Ok? ==> multiset(r.value) <= multiset(Candidates(db.users, term))
    ensures r.Ok? ==> forall u :: u in r.value ==>
              u in db.users && (Trim(term) != [] ==> NameContains(u, term))
    ensures r.Ok? ==> Sorting.Sorted(r.value, ByName)
    ensures r.Ok? ==> forall u, v :: u in r.value && v in Candidates(db.users, term) && !ByName(u, v) ==> v in r.value
  {
    if !db.connected then Err(SearchUsersFailed)
    else
      var admitted := Candidates(db.users, term);
      var sorted := Sorting.SortBy(admitted, ByName);
      var n := if |sorted| < SearchLimit then |sorted| else SearchLimit;
      ByNameTotal();
      Sorting.SortBySorted(admitted, ByName);
      Sorting.TakeOmitsNothingEarlier(sorted, ByName, n);
      assert sorted == sorted[..n] + sorted[n..];
      forall v ensures v in sorted <==> v in admitted {
        Sorting.MultisetMember(v, sorted, admitted);
      }
      Ok(sorted[..n])
  }

  /** A term of only whitespace searches like the empty term: no name filter. */
  lemma BlankTermListsEveryone(db: Database, term: string)
    requires IsBlank(term)
    ensures SearchUsers(db, term) == SearchUsers(db, "")
  {
    TrimEmptyIffBlank(term);
    TrimEmptyIffBlank("");
  }

  /** Folding keeps whitespace and maps nothing else onto it. */
  lemma FoldKeepsBlankness(a: string, b: string)
    requires Fold(a) == Fold(b)
    ensures IsBlank(a) <==> IsBlank(b)
  {
    forall i | 0 <= i < |a| ensures IsTrimmable(a[i]) <==> IsTrimmable(b[i]) {
      assert FoldChar(a[i]) == Fold(a)[i] == Fold(b)[i] == FoldChar(b[i]);
    }
  }

  /** Two terms that differ only in letter case find the same users. */
  lemma SearchIgnoresCase(db: Database, t1: string, t2: string)
    requires Fold(t1) == Fold(t2)
    ensures SearchUsers(db, t1) == SearchUsers(db, t2)
  {
    FoldKeepsBlankness(t1, t2);
    TrimEmptyIffBlank(t1);
    TrimEmptyIffBlank(t2);
  }

  /** A term that matches no name yields the empty list, not an error. */
  lemma NoMatchIsEmpty(db: Database, term: string)
    requires db.connected
    requires !IsBlank(term)
    requires forall u :: u in db.users ==> !NameContains(u, term)
    ensures SearchUsers(db, term) == Ok([])
  {
    TrimEmptyIffBlank(term);
  }

  /**
    The term is matched as typed: a non-blank term longer than a name, such as
    the name followed by a space, never finds that user.
   */
  lemma LongerTermMissesName(db: Database, term: string, u: User)
    requires db.connected
    requires !IsBlank(term) && u.name.Some? && |term| > |u.name.value|
    ensures u !in SearchUsers(db, term).value
  {
    TrimEmptyIffBlank(term);
    LongerNeverContained(u.name.value, term);
  }

  /** A user whose name is null is found only by a blank term. */
  lemma NamelessNeedsBlankTerm(db: Database, term: string, u: User)
    requires db.connected
    requires u.name.None? && u in SearchUsers(db, term).value
    ensures IsBlank(term)
  {
    TrimEmptyIffBlank(term);
  }

  /** In a search result, users whose name is null come after all the others. */
  lemma NamelessUsersComeLast(db: Database, term: string)
    requires db.connected
    ensures var r := SearchUsers(db, term).value;
            forall i, j :: 0 <= i < j < |r| && r[i].name.None? ==> r[j].name.None?
  {
  }

  /** A user with their profile (possibly absent) and their posts, newest first. */
  datatype UserProfile = UserProfile(user: User, posts: seq<Post>)

  /**
    `fetchUserProfile(userId)`: the user with their posts, newest first. An
    unknown id and an unreachable store fail with the same generic error; a
    user without a profile row is found all the same.
   */
  function FetchUserProfile(db: Database, userId: Id): (r: Result<UserProfile>)
    reads db
    ensures r.Err? ==> r.message == FetchProfileFailed
    ensures r.Ok? <==> db.connected && HasUser(db.users, userId)
    ensures r.Ok? ==> r.value.user in db.users && r.value.user.id == userId
    ensures r.Ok? ==> multiset(r.value.posts) == multiset(ByAuthor(db.posts, userId))
    ensures r.Ok? ==> Sorting.Sorted(r.value.posts, NewerPost)
  {
    if !db.connected then Err(FetchProfileFailed)
    else match FindUser(db.users, userId)
      case None => Err(FetchProfileFailed)
      case Some(u) => Ok(UserProfile(u, NewestFirst(ByAuthor(db.posts, userId))))
  }

  /** The profile lists the same posts, in the same order, as the author's feed. */
  lemma ProfilePostsMatchFeed(db: Database, userId: Id)
    requires db.Valid() && db.connected && HasUser(db.users, userId)
    ensures FetchUserProfile(db, userId).value.posts == PostsIn(Posts.FetchPostsByUserId(db, userId).value)
  {
  }
}
