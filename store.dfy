/**
 * The blog's tables held in memory, with one method per request handler that
 * changes them and one function per read-only view (posts/views.py), and the
 * deletion rules that models.py declares on its foreign keys.
 *
 * A requester is the id of a logged-in user; the views that allow anonymous
 * visitors take an Option. A username in a URL is the user's id. Form
 * validation is an opaque flag `formValid`.
 */
module Store {
  import opened Wrappers
  import opened Seqs
  import opened Models
  import FollowGraph
  import Paging

  /**
   * What a state-changing handler did: saved a change, left the tables alone
   * (a redirect or a re-rendered form), found no such row (404), or failed
   * with the tables unchanged (500).
   */
  datatype Outcome = Saved | Unchanged | NotFound | ServerError

  /** The values the group page shows: the group and its posts. */
  datatype GroupView = GroupView(group: Group, postList: seq<Post>)

  /** The values the profile page shows. */
  datatype ProfileView = ProfileView(author: UserId, postList: seq<Post>, postCount: nat, following: bool)

  /** The values the post page shows. */
  datatype PostView = PostView(post: Post, author: UserId, postCount: nat, comments: seq<Comment>)

  function GroupIds(gs: seq<Group>): set<GroupId> {
    set g | g in gs :: g.id
  }

  function PostIds(ps: seq<Post>): set<PostId> {
    set p | p in ps :: p.id
  }

  /** Ids of the posts `u` wrote. */
  function AuthoredIds(ps: seq<Post>, u: UserId): set<PostId> {
    set p | p in ps && p.author == u :: p.id
  }

  // Row predicates used by the views and the deletion rules.

  /** The post the URL /<username>/<post_id>/ names. */
  function HasKey(id: PostId, username: UserId): Post -> bool {
    (p: Post) => p.id == id && p.author == username
  }
  function ByAuthor(u: UserId): Post -> bool {
    (p: Post) => p.author == u
  }
  function NotByAuthor(u: UserId): Post -> bool {
    (p: Post) => p.author != u
  }
  function NotId(id: PostId): Post -> bool {
    (p: Post) => p.id != id
  }
  function InGroup(g: GroupId): Post -> bool {
    (p: Post) => p.group == Some(g)
  }
  function HasSlug(slug: string): Group -> bool {
    (g: Group) => g.slug == slug
  }
  function NotGroup(g: GroupId): Group -> bool {
    (x: Group) => x.id != g
  }
  function OnPost(id: PostId): Comment -> bool {
    (c: Comment) => c.post == id
  }
  function NotOnPost(id: PostId): Comment -> bool {
    (c: Comment) => c.post != id
  }
  /** A comment survives the deletion of user `u`, whose posts have the ids `gone`. */
  function CommentSurvives(u: UserId, gone: set<PostId>): Comment -> bool {
    (c: Comment) => c.author != u && c.post !in gone
  }

  // The table invariants: every reference points at an existing row, ids and
  // slugs are unique, posts are newest first, the follow table is sound.

  ghost predicate GroupsOk(gs: seq<Group>, nextGroupId: nat) {
    && (forall g :: g in gs ==> g.id < nextGroupId && FieldsFit(g.title, g.slug))
    && Pairwise(gs, DistinctGroups)
  }

  ghost predicate PostsOk(ps: seq<Post>, users: set<UserId>, gids: set<GroupId>, clock: nat, nextPostId: nat) {
    && (forall p :: p in ps ==>
          && p.author in users
          && (p.group.Some? ==> p.group.value in gids)
          && p.id < nextPostId
          && p.pubDate < clock)
    && Pairwise(ps, DistinctIds)
    && NewestFirst(ps)
  }

  ghost predicate CommentsOk(cs: seq<Comment>, pids: set<PostId>, users: set<UserId>, clock: nat) {
    forall c :: c in cs ==> c.post in pids && c.author in users && c.created < clock
  }

  ghost predicate FollowsOk(fs: seq<Follow>, users: set<UserId>) {
    && (forall f :: f in fs ==> f.user in users && f.author in users)
    && FollowGraph.Sound(fs)
  }

  /** Rewriting posts without touching their ids, dates or authors keeps the post invariant. */
  lemma SameKeysKeepPostsOk(ps: seq<Post>, qs: seq<Post>, users: set<UserId>, gids: set<GroupId>, gids': set<GroupId>,
                            clock: nat, nextPostId: nat)
    requires PostsOk(ps, users, gids, clock, nextPostId)
    requires |qs| == |ps|
    requires forall i :: 0 <= i < |ps| ==>
      qs[i].id == ps[i].id && qs[i].pubDate == ps[i].pubDate && qs[i].author == ps[i].author
    requires forall q :: q in qs && q.group.Some? ==> q.group.value in gids'
    ensures PostsOk(qs, users, gids', clock, nextPostId)
    ensures PostIds(qs) == PostIds(ps)
  {
  }

  /** With unique ids, the post at index `i` is the only one with its id. */
  lemma OnlyPostWithId(ps: seq<Post>, i: nat)
    requires Pairwise(ps, DistinctIds) && i < |ps|
    ensures forall j :: 0 <= j < |ps| && j != i ==> ps[j].id != ps[i].id
  {
  }

  /**
   * With unique post ids, the length of an author's post list is the number of
   * distinct posts they wrote: the count the profile shows is a count of rows.
   */
  lemma {:induction false} PostCountCountsPosts(ps: seq<Post>, u: UserId)
    ensures Pairwise(ps, DistinctIds) ==> |Filter(ps, ByAuthor(u))| == |AuthoredIds(ps, u)|
  {
    if |ps| > 0 && Pairwise(ps, DistinctIds) {
      var rest := ps[1..];
      PairwiseTail(ps, DistinctIds);
      PostCountCountsPosts(rest, u);
      AuthoredIdsOfCons(ps, u);
      assert ps[0].id !in AuthoredIds(rest, u);
    }
  }

  lemma AuthoredIdsOfCons(ps: seq<Post>, u: UserId)
    requires |ps| > 0
    ensures AuthoredIds(ps, u) == (if ps[0].author == u then {ps[0].id} else {}) + AuthoredIds(ps[1..], u)
  {
  }

  class Store {
    /** The user table, as ids. */
    var users: set<UserId>
    var groups: seq<Group>
    /** The post table in its declared order, newest first. */
    var posts: seq<Post>
    var comments: seq<Comment>
    var follows: seq<Follow>
    /** The time source for pub_date and created: strictly later than every stamp in the tables. */
    var clock: nat
    var nextPostId: PostId
    var nextGroupId: GroupId

    ghost predicate Valid()
      reads this
    {
      && GroupsOk(groups, nextGroupId)
      && PostsOk(posts, users, GroupIds(groups), clock, nextPostId)
      && CommentsOk(comments, PostIds(posts), users, clock)
      && FollowsOk(follows, users)
    }

    /** An empty database. */
    constructor ()
      ensures Valid()
      ensures users == {} && groups == [] && posts == [] && comments == [] && follows == []
    {
      users, groups, posts, comments, follows := {}, [], [], [], [];
      clock, nextPostId, nextGroupId := 0, 0, 0;
    }

    // ---------------------------------------------------------------------
    // Read-only views

    /** index: page `k` of all posts, ten to a page, newest first. */
    function IndexPage(k: nat): (page: seq<Post>)
      reads this
      requires Paging.InRange(|posts|, Paging.IndexPageSize, k)
      ensures |page| == Min(Paging.IndexPageSize, |posts| - (k - 1) * Paging.IndexPageSize)
      ensures forall i :: 0 <= i < |page| ==> page[i] == posts[(k - 1) * Paging.IndexPageSize + i]
      ensures forall p :: p in page ==> p in posts
      ensures NewestFirst(posts) ==> NewestFirst(page)
    {
      Paging.PageIsFull(posts, Paging.IndexPageSize, k);
      Paging.PageKeepsPairwise(posts, Paging.IndexPageSize, k, Newer);
      Paging.Page(posts, Paging.IndexPageSize, k)
    }

    /** The posts `u` wrote (author.posts.all()), newest first. */
    function AuthorPosts(u: UserId): (ps: seq<Post>)
      reads this
      ensures forall p :: p in ps <==> p in posts && p.author == u
      ensures NewestFirst(posts) ==> NewestFirst(ps)
      ensures Pairwise(posts, DistinctIds) ==> Pairwise(ps, DistinctIds)
    {
      FilterPairwise(posts, ByAuthor(u), Newer);
      FilterPairwise(posts, ByAuthor(u), DistinctIds);
      Filter(posts, ByAuthor(u))
    }

    /** group_posts: the group with this slug and its posts, newest first; None is the 404. */
    function GroupPosts(slug: string): (r: Option<GroupView>)
      reads this
      ensures r.None? <==> forall g :: g in groups ==> g.slug != slug
      ensures r.Some? ==> r.value.group in groups && r.value.group.slug == slug
      ensures r.Some? ==> forall p :: p in r.value.postList <==> p in posts && p.group == Some(r.value.group.id)
      ensures r.Some? ==> forall p ::
        multiset(r.value.postList)[p] == if p.group == Some(r.value.group.id) then multiset(posts)[p] else 0
      ensures r.Some? && NewestFirst(posts) ==> NewestFirst(r.value.postList)
      ensures r.Some? && Pairwise(posts, DistinctIds) ==> Pairwise(r.value.postList, DistinctIds)
    {
      match Find(groups, HasSlug(slug))
      case None => None
      case Some(i) =>
        FilterPairwise(posts, InGroup(groups[i].id), Newer);
        FilterPairwise(posts, InGroup(groups[i].id), DistinctIds);
        FilterCounts(posts, InGroup(groups[i].id));
        Some(GroupView(groups[i], Filter(posts, InGroup(groups[i].id))))
    }

    /**
     * profile: the author's posts, how many there are, and whether the
     * requester follows the author (never, for an anonymous requester).
     */
    function Profile(requester: Option<UserId>, username: UserId): (r: Option<ProfileView>)
      reads this
      ensures r.None? <==> username !in users
      ensures r.Some? ==> r.value.author == username
      ensures r.Some? ==> forall p :: p in r.value.postList <==> p in posts && p.author == username
      ensures r.Some? ==> r.value.postCount == |r.value.postList|
      ensures r.Some? && Pairwise(posts, DistinctIds) ==> Pairwise(r.value.postList, DistinctIds)
      ensures r.Some? && Pairwise(posts, DistinctIds) ==> r.value.postCount == |AuthoredIds(posts, username)|
      ensures r.Some? ==>
        (r.value.following <==> requester.Some? && FollowGraph.Follows(follows, requester.value, username))
      ensures r.Some? && NewestFirst(posts) ==> NewestFirst(r.value.postList)
    {
      if username !in users then None
      else
        var list := AuthorPosts(username);
        PostCountCountsPosts(posts, username);
        var following := match requester
          case None => false
          case Some(u) => FollowGraph.Follows(follows, u, username);
        Some(ProfileView(username, list, |list|, following))
    }

    /** post_view: the post /<username>/<post_id>/ names, its author's post count and its comments. */
    function PostPage(username: UserId, postId: PostId): (r: Option<PostView>)
      reads this
      ensures r.None? <==> forall p :: p in posts ==> !(p.id == postId && p.author == username)
      ensures r.Some? ==> r.value.post in posts && r.value.post.id == postId && r.value.post.author == username
      ensures r.Some? ==> r.value.author == username
      ensures r.Some? ==> r.value.postCount == |AuthorPosts(username)|
      ensures r.Some? && Pairwise(posts, DistinctIds) ==> r.value.postCount == |AuthoredIds(posts, username)|
      ensures r.Some? ==> forall c :: c in r.value.comments <==> c in comments && c.post == postId
      ensures r.Some? ==> forall c ::
        multiset(r.value.comments)[c] == if c.post == postId then multiset(comments)[c] else 0
    {
      match Find(posts, HasKey(postId, username))
      case None => None
      case Some(i) =>
        PostCountCountsPosts(posts, username);
        FilterCounts(comments, OnPost(postId));
        Some(PostView(posts[i], posts[i].author, |AuthorPosts(posts[i].author)|, Filter(comments, OnPost(postId))))
    }

    /** follow_index: the posts of the authors the requester follows, newest first, each once. */
    function FollowIndex(requester: UserId): (feed: seq<Post>)
      reads this
      ensures forall p :: p in feed <==> p in posts && FollowGraph.Follows(follows, requester, p.author)
      ensures NewestFirst(posts) ==> NewestFirst(feed)
      ensures Pairwise(posts, DistinctIds) ==> Pairwise(feed, DistinctIds)
    {
      FilterPairwise(posts, FollowGraph.AuthorFollowedBy(follows, requester), Newer);
      FilterPairwise(posts, FollowGraph.AuthorFollowedBy(follows, requester), DistinctIds);
      Filter(posts, FollowGraph.AuthorFollowedBy(follows, requester))
    }

    // ---------------------------------------------------------------------
    // Handlers that change the tables

    /** new_post: a submitted valid form creates one post by the requester, dated now. */
    method NewPost(requester: UserId, isPost: bool, formValid: bool, text: string, group: Option<GroupId>)
      returns (outcome: Outcome)
      requires Valid() && requester in users
      requires formValid && group.Some? ==> group.value in GroupIds(groups)
      modifies this`posts, this`clock, this`nextPostId
      ensures Valid()
      ensures outcome == (if isPost && formValid then Saved else Unchanged)
      ensures outcome == Saved ==>
        posts == [Post(old(nextPostId), text, old(clock), requester, group)] + old(posts)
      ensures outcome == Saved ==> old(nextPostId) !in PostIds(old(posts))
      ensures outcome == Saved ==> |AuthorPosts(requester)| == |old(AuthorPosts(requester))| + 1
      ensures outcome == Unchanged ==> posts == old(posts) && clock == old(clock) && nextPostId == old(nextPostId)
    {
      if isPost && formValid {
        var post := Post(nextPostId, text, clock, requester, group);
        PairwisePrepend(post, posts, DistinctIds);
        PairwisePrepend(post, posts, Newer);
        ghost var before := posts;
        posts := [post] + posts;
        clock := clock + 1;
        nextPostId := nextPostId + 1;
        assert PostIds(before) <= PostIds(posts) by {
          forall id | id in PostIds(before) ensures id in PostIds(posts) {
            var p :| p in before && p.id == id;
            assert p in posts;
          }
        }
        assert Filter(posts, ByAuthor(requester)) == [post] + Filter(before, ByAuthor(requester)) by {
          assert posts[1..] == before;
        }
        outcome := Saved;
      } else {
        outcome := Unchanged;
      }
    }

    /**
     * post_edit: only the post's author may change it; a submitted valid form
     * replaces its text and group and nothing else.
     */
    method PostEdit(requester: UserId, username: UserId, postId: PostId, isPost: bool, formValid: bool,
                    text: string, group: Option<GroupId>)
      returns (outcome: Outcome)
      requires Valid() && requester in users
      requires formValid && group.Some? ==> group.value in GroupIds(groups)
      modifies this`posts
      ensures Valid()
      ensures outcome == NotFound <==> forall p :: p in old(posts) ==> !(p.id == postId && p.author == username)
      ensures outcome == Saved <==> outcome != NotFound && requester == username && isPost && formValid
      ensures outcome != ServerError
      ensures forall p :: p in old(posts) && p.id == postId && p.author != requester ==> posts == old(posts)
      ensures outcome != Saved ==> posts == old(posts)
      ensures outcome == Saved ==> |posts| == |old(posts)|
      ensures outcome == Saved ==> forall i :: 0 <= i < |posts| ==>
        posts[i] == if old(posts)[i].id == postId then old(posts)[i].(text := text, group := group) else old(posts)[i]
    {
      var found := Find(posts, HasKey(postId, username));
      if found.None? {
        return NotFound;
      }
      var i := found.value;
      var post := posts[i];
      OnlyPostWithId(posts, i);
      if requester != post.author {
        return Unchanged;
      }
      if isPost && formValid {
        ghost var before := posts;
        posts := posts[i := post.(text := text, group := group)];
        SameKeysKeepPostsOk(before, posts, users, GroupIds(groups), GroupIds(groups), clock, nextPostId);
        outcome := Saved;
      } else {
        outcome := Unchanged;
      }
    }

    /**
     * add_comment: on a POST, a comment by the requester is attached to the
     * post the URL names. `body` is the submitted text, or None for a POST
     * that carries no fields. The view tests the bound method form.is_valid,
     * which is always true, instead of calling it. A POST without fields gives
     * an unbound form, which has no errors, so a comment with empty text is
     * saved. A POST whose fields do not validate reaches form.save(commit=False),
     * which raises: the request fails and nothing is saved.
     */
    method AddComment(requester: UserId, username: UserId, postId: PostId, isPost: bool, body: Option<string>,
                      formValid: bool)
      returns (outcome: Outcome)
      requires Valid() && requester in users
      modifies this`comments, this`clock
      ensures Valid()
      ensures outcome == NotFound <==> forall p :: p in posts ==> !(p.id == postId && p.author == username)
      ensures outcome == Saved <==> outcome != NotFound && isPost && (body.None? || formValid)
      ensures outcome == ServerError <==> outcome != NotFound && isPost && body.Some? && !formValid
      ensures outcome == Saved ==>
        comments == old(comments) + [Comment(postId, requester, body.GetOr(""), old(clock))]
      ensures outcome != Saved ==> comments == old(comments) && clock == old(clock)
      ensures outcome == Saved ==> |Filter(comments, OnPost(postId))| == |Filter(old(comments), OnPost(postId))| + 1
    {
      var found := Find(posts, HasKey(postId, username));
      if found.None? {
        return NotFound;
      }
      if !isPost {
        return Unchanged;
      }
      var text := "";
      if body.Some? {
        if !formValid {
          return ServerError;
        }
        text := body.value;
      }
      assert posts[found.value] in posts;
      var comment := Comment(postId, requester, text, clock);
      FilterAppend(comments, comment, OnPost(postId));
      comments := comments + [comment];
      clock := clock + 1;
      outcome := Saved;
    }

    /** profile_follow: subscribe the requester to the author, unless that is themself or done already. */
    method ProfileFollow(requester: UserId, username: UserId) returns (outcome: Outcome)
      requires Valid() && requester in users
      modifies this`follows
      ensures Valid()
      ensures outcome == NotFound <==> username !in users
      ensures outcome == Saved <==>
        username in users && username != requester && !FollowGraph.Follows(old(follows), requester, username)
      ensures outcome != ServerError
      ensures follows == if username in users then FollowGraph.Subscribe(old(follows), requester, username) else old(follows)
      ensures username in users && username != requester ==> Profile(Some(requester), username).value.following
      ensures forall p :: p in FollowIndex(requester) <==>
        p in old(FollowIndex(requester)) || (p in posts && p.author == username && username in users && username != requester)
    {
      if username !in users {
        return NotFound;
      }
      var author := username;
      FollowGraph.SubscribeKeepsSound(follows, requester, author);
      if author != requester && !FollowGraph.Follows(follows, requester, author) {
        follows := follows + [Follow(requester, author)];
        outcome := Saved;
      } else {
        outcome := Unchanged;
      }
    }

    /** profile_unfollow: delete the requester's subscriptions to the author, if there are any. */
    method ProfileUnfollow(requester: UserId, username: UserId) returns (outcome: Outcome)
      requires Valid() && requester in users
      modifies this`follows
      ensures Valid()
      ensures outcome == NotFound <==> username !in users
      ensures outcome == Saved <==>
        username in users && username != requester && FollowGraph.Follows(old(follows), requester, username)
      ensures outcome != ServerError
      ensures follows == if username in users then FollowGraph.Unsubscribe(old(follows), requester, username) else old(follows)
      ensures username in users && username != requester ==> !Profile(Some(requester), username).value.following
      ensures forall p :: p in FollowIndex(requester) <==>
        p in old(FollowIndex(requester)) && (p.author != username || username !in users || username == requester)
    {
      if username !in users {
        return NotFound;
      }
      var author := username;
      FollowGraph.UnsubscribeKeepsSound(follows, requester, author);
      if author != requester && FollowGraph.Follows(follows, requester, author) {
        follows := Filter(follows, FollowGraph.NotEdge(Follow(requester, author)));
        outcome := Saved;
      } else {
        outcome := Unchanged;
      }
    }

    // ---------------------------------------------------------------------
    // Rows created and deleted outside the views

    /** A new account; user ids are unique. */
    method AddUser(u: UserId) returns (added: bool)
      requires Valid()
      modifies this`users
      ensures Valid()
      ensures added <==> u !in old(users)
      ensures users == old(users) + {u}
    {
      added := u !in users;
      users := users + {u};
    }

    /** A new group; refused when the slug is taken or a field is wider than its column. */
    method AddGroup(title: string, slug: string, description: string) returns (r: Option<GroupId>)
      requires Valid()
      modifies this`groups, this`nextGroupId
      ensures Valid()
      ensures r.Some? <==> FieldsFit(title, slug) && forall g :: g in old(groups) ==> g.slug != slug
      ensures r.Some? ==> r.value !in GroupIds(old(groups))
      ensures r.Some? ==> groups == old(groups) + [Group(r.value, title, slug, description)]
      ensures r.None? ==> groups == old(groups) && nextGroupId == old(nextGroupId)
    {
      if !FieldsFit(title, slug) || Find(groups, HasSlug(slug)).Some? {
        return None;
      }
      var g := Group(nextGroupId, title, slug, description);
      PairwiseAppend(groups, g, DistinctGroups);
      ghost var before := groups;
      groups := groups + [g];
      nextGroupId := nextGroupId + 1;
      assert GroupIds(before) <= GroupIds(groups) by {
        forall id | id in GroupIds(before) ensures id in GroupIds(groups) {
          var x :| x in before && x.id == id;
          assert x in groups;
        }
      }
      r := Some(g.id);
    }

    /**
     * Deleting a user cascades: their posts go, with every comment on those
     * posts; their own comments go; every follow row with them at either end goes.
     */
    method DeleteUser(u: UserId)
      requires Valid()
      modifies this`users, this`posts, this`comments, this`follows
      ensures Valid()
      ensures users == old(users) - {u}
      ensures posts == Filter(old(posts), NotByAuthor(u))
      ensures comments == Filter(old(comments), CommentSurvives(u, AuthoredIds(old(posts), u)))
      ensures follows == Filter(old(follows), FollowGraph.Untouched(u))
      ensures forall p :: p in posts <==> p in old(posts) && p.author != u
      ensures forall c :: c in comments <==>
        c in old(comments) && c.author != u && c.post !in AuthoredIds(old(posts), u)
      ensures forall f :: f in follows <==> f in old(follows) && f.user != u && f.author != u
    {
      var gone := AuthoredIds(posts, u);
      ghost var oldPosts := posts;
      FilterPairwise(posts, NotByAuthor(u), DistinctIds);
      FilterPairwise(posts, NotByAuthor(u), Newer);
      FilterPairwise(follows, FollowGraph.Untouched(u), FollowGraph.DistinctRows);
      users := users - {u};
      posts := Filter(posts, NotByAuthor(u));
      comments := Filter(comments, CommentSurvives(u, gone));
      follows := Filter(follows, FollowGraph.Untouched(u));
      forall c | c in comments ensures c.post in PostIds(posts) {
        var p :| p in oldPosts && p.id == c.post;
        assert p.author != u;
        assert p in posts;
      }
    }

    /** Deleting a post deletes exactly the comments on it. */
    method DeletePost(id: PostId)
      requires Valid()
      modifies this`posts, this`comments
      ensures Valid()
      ensures posts == Filter(old(posts), NotId(id))
      ensures comments == Filter(old(comments), NotOnPost(id))
      ensures forall p :: p in posts <==> p in old(posts) && p.id != id
      ensures forall c :: c in comments <==> c in old(comments) && c.post != id
    {
      ghost var oldPosts := posts;
      FilterPairwise(posts, NotId(id), DistinctIds);
      FilterPairwise(posts, NotId(id), Newer);
      posts := Filter(posts, NotId(id));
      comments := Filter(comments, NotOnPost(id));
      forall c | c in comments ensures c.post in PostIds(posts) {
        var p :| p in oldPosts && p.id == c.post;
        assert p in posts;
      }
    }

    /** Deleting a group keeps its posts and empties their group; nothing else changes. */
    method DeleteGroup(gid: GroupId)
      requires Valid()
      modifies this`groups, this`posts
      ensures Valid()
      ensures groups == Filter(old(groups), NotGroup(gid))
      ensures forall g :: g in groups <==> g in old(groups) && g.id != gid
      ensures |posts| == |old(posts)|
      ensures forall i :: 0 <= i < |posts| ==>
        posts[i] == if old(posts)[i].group == Some(gid) then old(posts)[i].(group := None) else old(posts)[i]
    {
      ghost var oldGroups := groups;
      ghost var before := posts;
      FilterPairwise(groups, NotGroup(gid), DistinctGroups);
      groups := Filter(groups, NotGroup(gid));
      posts := seq(|posts|, i requires 0 <= i < |posts| reads this =>
        if posts[i].group == Some(gid) then posts[i].(group := None) else posts[i]);
      forall q | q in posts && q.group.Some? ensures q.group.value in GroupIds(groups) {
        var i :| 0 <= i < |posts| && posts[i] == q;
        assert before[i] in before;
        var g :| g in oldGroups && g.id == q.group.value;
        assert g in groups;
      }
      SameKeysKeepPostsOk(before, posts, users, GroupIds(oldGroups), GroupIds(groups), clock, nextPostId);
    }
  }
}
