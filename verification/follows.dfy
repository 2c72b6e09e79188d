/**
 * The follow table as the follow views change and query it. The table itself has no
 * uniqueness constraint and no self-follow check: both guarantees come from the views,
 * so they are stated here as properties the operations keep, not as table invariants.
 */
module Follows {
  import opened Common
  import opened Models
  import Seqs

  /** Follow.objects.filter(user=user, author=author).exists() */
  function IsFollowing(follows: seq<Follow>, user: nat, author: nat): (r: bool)
    ensures r <==> EdgeCount(follows, user, author) > 0
  {
    Follow(user, author) in follows
  }

  /** How many rows record that `user` follows `author`. */
  function EdgeCount(follows: seq<Follow>, user: nat, author: nat): nat
  {
    multiset(follows)[Follow(user, author)]
  }

  /**
   * Follow.objects.get_or_create(user=user, author=author). Its get() raises
   * MultipleObjectsReturned when the pair already has two or more rows: that is the None
   * outcome, and the table is left as it was. Otherwise afterwards the edge exists exactly
   * once, one row was added if and only if none was there, and no other row changed.
   */
  function AddEdge(follows: seq<Follow>, user: nat, author: nat): (r: Option<seq<Follow>>)
    ensures r.None? <==> EdgeCount(follows, user, author) > 1
    ensures r.Some? ==> IsFollowing(r.value, user, author) && EdgeCount(r.value, user, author) == 1
    ensures r.Some? && IsFollowing(follows, user, author) ==> r.value == follows
    ensures r.Some? ==> forall e :: e != Follow(user, author) ==> multiset(r.value)[e] == multiset(follows)[e]
    ensures r.Some? ==> forall e :: e in r.value <==> e in follows || e == Follow(user, author)
  {
    if EdgeCount(follows, user, author) > 1 then None
    else if Follow(user, author) in follows then Some(follows)
    else Some(follows + [Follow(user, author)])
  }

  /**
   * Follow.objects.filter(user=user, author=author).delete(): afterwards no such row exists,
   * and every other row is kept, as often as it occurred and in its order.
   */
  function RemoveEdges(follows: seq<Follow>, user: nat, author: nat): (r: seq<Follow>)
    ensures !IsFollowing(r, user, author)
    ensures forall e :: e != Follow(user, author) ==> multiset(r)[e] == multiset(follows)[e]
  {
    var keep := (e: Follow) => e != Follow(user, author);
    forall e ensures multiset(Seqs.Filter(follows, keep))[e] == if keep(e) then multiset(follows)[e] else 0 {
      Seqs.FilterCount(follows, keep, e);
    }
    Seqs.Filter(follows, keep)
  }

  /** At most one row per (user, author) pair. */
  ghost predicate NoDuplicateEdges(follows: seq<Follow>)
  {
    forall e :: multiset(follows)[e] <= 1
  }

  /** Nobody follows themself. */
  ghost predicate NoSelfEdges(follows: seq<Follow>)
  {
    forall e :: e in follows ==> e.user != e.author
  }

  /** Following twice has the effect of following once, and the second time never fails. */
  lemma FollowIdempotent(follows: seq<Follow>, user: nat, author: nat)
    ensures AddEdge(follows, user, author).Some? ==>
              AddEdge(AddEdge(follows, user, author).value, user, author) == AddEdge(follows, user, author)
  {
  }

  /** Unfollowing twice has the effect of unfollowing once. */
  lemma UnfollowIdempotent(follows: seq<Follow>, user: nat, author: nat)
    ensures RemoveEdges(RemoveEdges(follows, user, author), user, author) == RemoveEdges(follows, user, author)
  {
    Seqs.FilterIdempotent(follows, (e: Follow) => e != Follow(user, author));
  }

  /**
   * Follow then unfollow leaves the table as unfollow alone would: the edge is gone and
   * nothing else differs.
   */
  lemma FollowThenUnfollow(follows: seq<Follow>, user: nat, author: nat)
    ensures AddEdge(follows, user, author).Some? ==>
              RemoveEdges(AddEdge(follows, user, author).value, user, author) == RemoveEdges(follows, user, author)
    ensures AddEdge(follows, user, author).Some? ==>
              !IsFollowing(RemoveEdges(AddEdge(follows, user, author).value, user, author), user, author)
  {
    var keep := (e: Follow) => e != Follow(user, author);
    if Follow(user, author) !in follows {
      Seqs.FilterAppendDropped(follows, Follow(user, author), keep);
    }
  }

  /**
   * On a table without duplicate rows following never fails, and it keeps the table free of
   * duplicate rows, and free of self-edges when the pair is not a self-edge.
   */
  lemma AddEdgeKeepsShape(follows: seq<Follow>, user: nat, author: nat)
    requires NoDuplicateEdges(follows)
    ensures AddEdge(follows, user, author).Some?
    ensures NoDuplicateEdges(AddEdge(follows, user, author).value)
    ensures NoSelfEdges(follows) && user != author ==> NoSelfEdges(AddEdge(follows, user, author).value)
  {
    var r := AddEdge(follows, user, author).value;
    forall e ensures multiset(r)[e] <= 1 {
      if e == Follow(user, author) && e !in follows {
        assert multiset(follows)[e] == 0;
      }
    }
  }

  /** Unfollowing keeps both shapes. */
  lemma RemoveEdgesKeepsShape(follows: seq<Follow>, user: nat, author: nat)
    ensures NoDuplicateEdges(follows) ==> NoDuplicateEdges(RemoveEdges(follows, user, author))
    ensures NoSelfEdges(follows) ==> NoSelfEdges(RemoveEdges(follows, user, author))
  {
    var r := RemoveEdges(follows, user, author);
    forall e | e in r ensures e in follows {
      assert multiset(r)[e] > 0;
      if e != Follow(user, author) { assert multiset(follows)[e] > 0; }
    }
  }
}
