/**
 * The Follow table and the changes profile_follow and profile_unfollow make
 * to it (posts/views.py). The table is a sequence of rows, so a duplicated
 * row could be represented; Sound() states that none is, and that no user
 * follows themself, and both handlers keep it so.
 */
module FollowGraph {
  import opened Models
  import opened Seqs

  /** The edge user -> author is in the table (Follow.objects.filter(...).exists()). */
  predicate Follows(t: seq<Follow>, user: UserId, author: UserId) {
    Follow(user, author) in t
  }

  function DistinctRows(a: Follow, b: Follow): bool {
    a != b
  }

  /** No self-edge and no row that occurs twice. */
  ghost predicate Sound(t: seq<Follow>) {
    && (forall f :: f in t ==> f.user != f.author)
    && Pairwise(t, DistinctRows)
  }

  /** Keeps every row other than `e`. */
  function NotEdge(e: Follow): Follow -> bool {
    f => f != e
  }

  /** Keeps the rows in which `u` is neither the follower nor the followed author. */
  function Untouched(u: UserId): Follow -> bool {
    (f: Follow) => f.user != u && f.author != u
  }

  /** Keeps the posts whose author `user` follows in `t`. */
  function AuthorFollowedBy(t: seq<Follow>, user: UserId): Post -> bool {
    (p: Post) => Follows(t, user, p.author)
  }

  /**
   * profile_follow: a row user -> author is created unless the author is the
   * user or the row exists already. The edges afterwards are the old ones plus
   * user -> author when the two differ.
   */
  function Subscribe(t: seq<Follow>, user: UserId, author: UserId): (r: seq<Follow>)
    ensures forall e :: e in r <==> e in t || (e == Follow(user, author) && user != author)
  {
    if author != user && !Follows(t, user, author) then t + [Follow(user, author)] else t
  }

  /**
   * profile_unfollow: when the author is not the user and an edge exists,
   * every user -> author row is deleted. The edges afterwards are the old ones
   * less user -> author when the two differ.
   */
  function Unsubscribe(t: seq<Follow>, user: UserId, author: UserId): (r: seq<Follow>)
    ensures forall e :: e in r <==> e in t && (e != Follow(user, author) || user == author)
  {
    if author != user && Follows(t, user, author) then Filter(t, NotEdge(Follow(user, author))) else t
  }

  /** Following adds one row, user -> author, when the guard lets it; otherwise the table is unchanged. */
  lemma SubscribeRows(t: seq<Follow>, user: UserId, author: UserId)
    ensures user == author ==> Subscribe(t, user, author) == t
    ensures Follows(t, user, author) ==> Subscribe(t, user, author) == t
    ensures user != author && !Follows(t, user, author) ==>
      multiset(Subscribe(t, user, author)) == multiset(t) + multiset{Follow(user, author)}
  {
  }

  /** Following twice leaves the table as following once does. */
  lemma SubscribeIdempotent(t: seq<Follow>, user: UserId, author: UserId)
    ensures Subscribe(Subscribe(t, user, author), user, author) == Subscribe(t, user, author)
  {
  }

  /** Following keeps the table free of self-edges and duplicate rows. */
  lemma SubscribeKeepsSound(t: seq<Follow>, user: UserId, author: UserId)
    requires Sound(t)
    ensures Sound(Subscribe(t, user, author))
  {
  }

  /** In a sound table there is at most one row for each edge. */
  lemma AtMostOneRow(t: seq<Follow>, user: UserId, author: UserId)
    requires Sound(t)
    ensures multiset(t)[Follow(user, author)] <= 1
  {
    DistinctOccursOnce(t, DistinctRows, Follow(user, author));
  }

  /**
   * Unfollowing a different author deletes every user -> author row and keeps
   * every copy of every other row; unfollowing oneself changes nothing.
   */
  lemma UnsubscribeRows(t: seq<Follow>, user: UserId, author: UserId)
    ensures user == author || !Follows(t, user, author) ==> Unsubscribe(t, user, author) == t
    ensures user != author ==> multiset(Unsubscribe(t, user, author))[Follow(user, author)] == 0
    ensures forall e :: e != Follow(user, author) ==>
      multiset(Unsubscribe(t, user, author))[e] == multiset(t)[e]
  {
    if author != user && Follows(t, user, author) {
      forall e ensures multiset(Unsubscribe(t, user, author))[e] == (if e == Follow(user, author) then 0 else multiset(t)[e]) {
        FilterMultiplicity(t, NotEdge(Follow(user, author)), e);
      }
    }
  }

  /** Unfollowing keeps the table free of self-edges and duplicate rows. */
  lemma UnsubscribeKeepsSound(t: seq<Follow>, user: UserId, author: UserId)
    requires Sound(t)
    ensures Sound(Unsubscribe(t, user, author))
  {
    FilterPairwise(t, NotEdge(Follow(user, author)), DistinctRows);
  }

  /** Unfollowing right after a follow that created a row gives back the table as it was. */
  lemma UnsubscribeUndoesSubscribe(t: seq<Follow>, user: UserId, author: UserId)
    requires user != author && !Follows(t, user, author)
    ensures Unsubscribe(Subscribe(t, user, author), user, author) == t
  {
    var e := Follow(user, author);
    FilterAppend(t, e, NotEdge(e));
    FilterKeepsAll(t, NotEdge(e));
  }

  /** Following again right after an unfollow that deleted the edge gives back the same rows. */
  lemma SubscribeUndoesUnsubscribe(t: seq<Follow>, user: UserId, author: UserId)
    requires Sound(t) && user != author && Follows(t, user, author)
    ensures multiset(Subscribe(Unsubscribe(t, user, author), user, author)) == multiset(t)
  {
    var e := Follow(user, author);
    var u := Unsubscribe(t, user, author);
    UnsubscribeRows(t, user, author);
    AtMostOneRow(t, user, author);
    assert !Follows(u, user, author);
    forall x ensures multiset(Subscribe(u, user, author))[x] == multiset(t)[x] {
    }
  }
}
