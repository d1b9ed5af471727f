/**
  A join table keyed by the compound unique key (userId, postId): the like
  table and the saved-post table. A pair is either absent or present; a toggle
  creates the row when it is absent and deletes it when it is present.
 */
module JoinTable {
  import opened Wrappers
  import opened Schema
  import Sorting

  /** A row for the pair (userId, postId) exists. */
  predicate Has(t: seq<JoinRow>, userId: Id, postId: Id)
  {
    exists row :: row in t && row.userId == userId && row.postId == postId
  }

  /** `findUnique({ where: { userId_postId } })`. */
  function Find(t: seq<JoinRow>, userId: Id, postId: Id): (r: Option<JoinRow>)
    ensures r.Some? <==> Has(t, userId, postId)
    ensures r.Some? ==> r.value in t && r.value.userId == userId && r.value.postId == postId
  {
    if t == [] then None
    else if t[0].userId == userId && t[0].postId == postId then Some(t[0])
    else Find(t[1..], userId, postId)
  }

  /** The compound unique constraint: no pair has two rows. */
  ghost predicate Unique(t: seq<JoinRow>)
  {
    t == [] || (!Has(t[1..], t[0].userId, t[0].postId) && Unique(t[1..]))
  }

  /** Rows whose key is not (userId, postId). */
  function OtherKey(userId: Id, postId: Id): JoinRow -> bool
  {
    (row: JoinRow) => !(row.userId == userId && row.postId == postId)
  }

  /** `where: { postId }`. */
  function OnPost(postId: Id): JoinRow -> bool
  {
    (row: JoinRow) => row.postId == postId
  }

  /** `where: { userId }`. */
  function OfUser(userId: Id): JoinRow -> bool
  {
    (row: JoinRow) => row.userId == userId
  }

  /** `delete({ where: { userId_postId } })`: removes the row of that pair and no other. */
  function Delete(t: seq<JoinRow>, userId: Id, postId: Id): (r: seq<JoinRow>)
    ensures forall row :: row in r <==> row in t && !(row.userId == userId && row.postId == postId)
    ensures !Has(r, userId, postId)
    ensures forall u, p :: !(u == userId && p == postId) ==> (Has(r, u, p) <==> Has(t, u, p))
  {
    Sorting.Filter(t, OtherKey(userId, postId))
  }

  /** The rows of one post (`where: { postId }`), in table order. */
  function RowsForPost(t: seq<JoinRow>, postId: Id): (r: seq<JoinRow>)
    ensures forall row :: row in r <==> row in t && row.postId == postId
  {
    Sorting.Filter(t, OnPost(postId))
  }

  /** The rows of one user (`where: { userId }`), in table order. */
  function RowsOfUser(t: seq<JoinRow>, userId: Id): (r: seq<JoinRow>)
    ensures forall row :: row in r <==> row in t && row.userId == userId
  {
    Sorting.Filter(t, OfUser(userId))
  }

  /** `count({ where: { postId } })`. */
  function CountForPost(t: seq<JoinRow>, postId: Id): (n: nat)
    ensures n <= |t|
    ensures n == 0 <==> forall row :: row in t ==> row.postId != postId
  {
    |RowsForPost(t, postId)|
  }

  /** The users that have a row for `postId`. */
  function Users(t: seq<JoinRow>, postId: Id): (s: set<Id>)
    ensures forall u :: u in s <==> Has(t, u, postId)
  {
    set row | row in t && row.postId == postId :: row.userId
  }

  /**
    The toggle as a transition of the table: the result reports whether the
    pair is present afterwards.
   */
  function Toggle(t: seq<JoinRow>, userId: Id, postId: Id, now: nat): (res: (bool, seq<JoinRow>))
    ensures res.0 == !Has(t, userId, postId)
    ensures Has(res.1, userId, postId) == res.0
    ensures forall u, p :: !(u == userId && p == postId) ==> (Has(res.1, u, p) <==> Has(t, u, p))
  {
    if Find(t, userId, postId).Some? then (false, Delete(t, userId, postId))
    else (true, t + [JoinRow(userId, postId, now)])
  }

  /** A toggle keeps the compound unique constraint. */
  lemma ToggleKeepsUnique(t: seq<JoinRow>, userId: Id, postId: Id, now: nat)
    requires Unique(t)
    ensures Unique(Toggle(t, userId, postId, now).1)
  {
    if Has(t, userId, postId) {
      DeleteKeepsUnique(t, userId, postId);
    } else {
      AppendKeepsUnique(t, JoinRow(userId, postId, now));
    }
  }

  /** The table after toggling one pair once per clock reading in `times`. */
  function ToggleAll(t: seq<JoinRow>, userId: Id, postId: Id, times: seq<nat>): seq<JoinRow>
    decreases times
  {
    if times == [] then t
    else ToggleAll(Toggle(t, userId, postId, times[0]).1, userId, postId, times[1..])
  }

  lemma {:induction false} FilterKeepsUnique(t: seq<JoinRow>, keep: JoinRow -> bool)
    requires Unique(t)
    ensures Unique(Sorting.Filter(t, keep))
  {
    if t != [] {
      FilterKeepsUnique(t[1..], keep);
      var rest := Sorting.Filter(t[1..], keep);
      if keep(t[0]) {
        assert Sorting.Filter(t, keep) == [t[0]] + rest;
        assert ([t[0]] + rest)[1..] == rest;
      }
    }
  }

  /** Deleting a pair keeps the constraint. */
  lemma DeleteKeepsUnique(t: seq<JoinRow>, userId: Id, postId: Id)
    requires Unique(t)
    ensures Unique(Delete(t, userId, postId))
  {
    FilterKeepsUnique(t, OtherKey(userId, postId));
  }

  /** Creating a row for an absent pair keeps the constraint. */
  lemma {:induction false} AppendKeepsUnique(t: seq<JoinRow>, row: JoinRow)
    requires Unique(t)
    requires !Has(t, row.userId, row.postId)
    ensures Unique(t + [row])
  {
    if t != [] {
      assert (t + [row])[1..] == t[1..] + [row];
      assert t[0] in t;
      AppendKeepsUnique(t[1..], row);
    } else {
      assert [row][1..] == [];
    }
  }

  /** Under the constraint, deleting a present pair removes exactly one row. */
  lemma {:induction false} DeleteRemovesOne(t: seq<JoinRow>, userId: Id, postId: Id)
    requires Unique(t)
    requires Has(t, userId, postId)
    ensures |Delete(t, userId, postId)| == |t| - 1
  {
    var keep := OtherKey(userId, postId);
    if t[0].userId == userId && t[0].postId == postId {
      Sorting.FilterAll(t[1..], keep);
    } else {
      assert Has(t[1..], userId, postId);
      DeleteRemovesOne(t[1..], userId, postId);
    }
  }

  /** Deleting a row that was just created restores the table exactly. */
  lemma DeleteAppended(t: seq<JoinRow>, row: JoinRow)
    requires !Has(t, row.userId, row.postId)
    ensures Delete(t + [row], row.userId, row.postId) == t
  {
    var keep := OtherKey(row.userId, row.postId);
    Sorting.FilterAppend(t, [row], keep);
    Sorting.FilterAll(t, keep);
    assert Sorting.Filter([row], keep) == [];
  }

  /**
    Two toggles of one pair: the second reports the opposite of the first, every
    pair is present afterwards exactly when it was before, and starting from an
    absent pair the table is restored exactly.
   */
  lemma ToggleTwice(t: seq<JoinRow>, userId: Id, postId: Id, first: nat, second: nat)
    ensures var (b1, t1) := Toggle(t, userId, postId, first);
            var (b2, t2) := Toggle(t1, userId, postId, second);
            && b2 == !b1
            && (forall u, p :: Has(t2, u, p) <==> Has(t, u, p))
            && (b1 ==> t2 == t)
  {
    var (b1, t1) := Toggle(t, userId, postId, first);
    if b1 {
      DeleteAppended(t, JoinRow(userId, postId, first));
    }
  }

  /**
    The parity law: after toggling a pair `|times|` times it is present exactly
    when it was present before and the count is even.
   */
  lemma {:induction false} ToggleParity(t: seq<JoinRow>, userId: Id, postId: Id, times: seq<nat>)
    ensures Has(ToggleAll(t, userId, postId, times), userId, postId)
        == (Has(t, userId, postId) == (|times| % 2 == 0))
    decreases times
  {
    if times != [] {
      var t1 := Toggle(t, userId, postId, times[0]).1;
      var rest := times[1..];
      ToggleParity(t1, userId, postId, rest);
      assert ToggleAll(t, userId, postId, times) == ToggleAll(t1, userId, postId, rest);
      OneMoreFlipsParity(|rest|, |times|);
    }
  }

  lemma OneMoreFlipsParity(n: nat, m: nat)
    requires m == n + 1
    ensures (m % 2 == 0) == (n % 2 != 0)
  {
  }

  /**
    Under the constraint the number of rows of a post is the number of users
    that have a row for it.
   */
  lemma {:induction false} CountIsUsers(t: seq<JoinRow>, postId: Id)
    requires Unique(t)
    ensures CountForPost(t, postId) == |Users(t, postId)|
  {
    if t == [] {
      assert Users(t, postId) == {};
    } else {
      var rest := t[1..];
      CountIsUsers(rest, postId);
      UsersCons(t, postId);
      if t[0].postId == postId {
        assert RowsForPost(t, postId) == [t[0]] + RowsForPost(rest, postId);
      } else {
        assert RowsForPost(t, postId) == RowsForPost(rest, postId);
      }
    }
  }

  /** The users of a post in a table, from its first row and the rest. */
  lemma UsersCons(t: seq<JoinRow>, postId: Id)
    requires t != [] && Unique(t)
    ensures t[0].postId == postId ==>
              Users(t, postId) == Users(t[1..], postId) + {t[0].userId} && t[0].userId !in Users(t[1..], postId)
    ensures t[0].postId != postId ==> Users(t, postId) == Users(t[1..], postId)
  {
  }

  /** Under the constraint a user has one row for a post when the pair is present, else none. */
  lemma {:induction false} OneRowPerPair(t: seq<JoinRow>, userId: Id, postId: Id)
    requires Unique(t)
    ensures |RowsForPost(RowsOfUser(t, userId), postId)| == if Has(t, userId, postId) then 1 else 0
  {
    if t != [] {
      var rest := t[1..];
      OneRowPerPair(rest, userId, postId);
      var mine := RowsOfUser(rest, userId);
      if t[0].userId == userId {
        assert RowsOfUser(t, userId) == [t[0]] + mine;
        Sorting.FilterCons(t[0], mine, OnPost(postId));
        if t[0].postId == postId {
          assert !Has(rest, userId, postId);
        } else {
          assert Has(t, userId, postId) == Has(rest, userId, postId);
        }
      } else {
        assert RowsOfUser(t, userId) == mine;
        assert Has(t, userId, postId) == Has(rest, userId, postId);
      }
    }
  }
}
