/** Facts that relate several views and tables of the store. */
module StoreLemmas {
  import opened Wrappers
  import opened Seqs
  import opened Models
  import opened Store
  import Paging

  /** The post page reports the same post count for its author as the author's profile does. */
  lemma PostCountsAgree(s: Store, requester: Option<UserId>, username: UserId, postId: PostId)
    requires s.Valid()
    requires s.PostPage(username, postId).Some?
    ensures s.Profile(requester, username).Some?
    ensures s.Profile(requester, username).value.postCount == s.PostPage(username, postId).value.postCount
    ensures s.PostPage(username, postId).value.postCount == |AuthoredIds(s.posts, username)|
  {
    var post := s.PostPage(username, postId).value.post;
    assert post.author in s.users;
    PostCountCountsPosts(s.posts, username);
  }

  /** In a valid store every listing is newest first: publication dates never increase down a list. */
  lemma ListingsAreNewestFirst(s: Store, requester: Option<UserId>, u: UserId, slug: string, i: nat, j: nat)
    requires s.Valid()
    ensures i < j < |s.posts| ==> s.posts[i].pubDate >= s.posts[j].pubDate
    ensures i < j < |s.FollowIndex(u)| ==> s.FollowIndex(u)[i].pubDate >= s.FollowIndex(u)[j].pubDate
    ensures s.Profile(requester, u).Some? && i < j < |s.Profile(requester, u).value.postList| ==>
      s.Profile(requester, u).value.postList[i].pubDate >= s.Profile(requester, u).value.postList[j].pubDate
    ensures s.GroupPosts(slug).Some? && i < j < |s.GroupPosts(slug).value.postList| ==>
      s.GroupPosts(slug).value.postList[i].pubDate >= s.GroupPosts(slug).value.postList[j].pubDate
  {
  }

  /** In a valid store every page of the group, profile and feed listings, five to a page, is newest first. */
  lemma ListingPagesAreNewestFirst(s: Store, requester: Option<UserId>, u: UserId, slug: string, k: nat)
    requires s.Valid()
    ensures Paging.InRange(|s.FollowIndex(u)|, Paging.PageSize, k) ==>
      NewestFirst(Paging.Page(s.FollowIndex(u), Paging.PageSize, k))
    ensures s.Profile(requester, u).Some? && Paging.InRange(|s.Profile(requester, u).value.postList|, Paging.PageSize, k) ==>
      NewestFirst(Paging.Page(s.Profile(requester, u).value.postList, Paging.PageSize, k))
    ensures s.GroupPosts(slug).Some? && Paging.InRange(|s.GroupPosts(slug).value.postList|, Paging.PageSize, k) ==>
      NewestFirst(Paging.Page(s.GroupPosts(slug).value.postList, Paging.PageSize, k))
  {
    if Paging.InRange(|s.FollowIndex(u)|, Paging.PageSize, k) {
      Paging.PageKeepsPairwise(s.FollowIndex(u), Paging.PageSize, k, Newer);
    }
    var profile := s.Profile(requester, u);
    if profile.Some? && Paging.InRange(|profile.value.postList|, Paging.PageSize, k) {
      Paging.PageKeepsPairwise(profile.value.postList, Paging.PageSize, k, Newer);
    }
    var group := s.GroupPosts(slug);
    if group.Some? && Paging.InRange(|group.value.postList|, Paging.PageSize, k) {
      Paging.PageKeepsPairwise(group.value.postList, Paging.PageSize, k, Newer);
    }
  }

  /** In a valid store no row mentions a user who is not in the user table. */
  lemma NoDanglingUser(s: Store, u: UserId)
    requires s.Valid() && u !in s.users
    ensures forall p :: p in s.posts ==> p.author != u
    ensures forall c :: c in s.comments ==> c.author != u
    ensures forall f :: f in s.follows ==> f.user != u && f.author != u
  {
  }

  /** In a valid store nobody follows themself and each edge has at most one row. */
  lemma FollowTableIsAGraph(s: Store, user: UserId, author: UserId)
    requires s.Valid()
    ensures !FollowGraph.Follows(s.follows, user, user)
    ensures multiset(s.follows)[Follow(user, author)] <= 1
  {
    FollowGraph.AtMostOneRow(s.follows, user, author);
  }

  /** In a valid store no two groups share a slug, and slugs and titles fit their columns. */
  lemma GroupSlugsAreUnique(s: Store, i: nat, j: nat)
    requires s.Valid() && i < |s.groups| && j < |s.groups| && i != j
    ensures s.groups[i].slug != s.groups[j].slug
    ensures |s.groups[i].slug| <= SlugMaxLength && |s.groups[i].title| <= TitleMaxLength
  {
  }
}
