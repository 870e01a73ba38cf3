# A verified model of a small blogging platform's business rules

The platform lets users write posts, file them under groups, comment on posts,
and follow other authors so their posts show up in a personal feed. Its
handlers are thin code over an object-relational mapper. This project models
the database as an in-memory store. The `Store.Store` class holds the tables as
fields: a set of user ids and sequences of group, post, comment and follow
rows, plus a clock for timestamps and id counters. Each handler that writes to
the tables is one method, and each read-only view is one function. The
deletion rules that the model classes declare on their foreign keys (`CASCADE`,
`SET_NULL`) become the postconditions of the delete methods.

Modules:

- `Wrappers`: `Option`.
- `Seqs`: filtering a table, finding a row, and `Pairwise` (a relation holds for every earlier/later pair of rows). It also has the lemmas that filtering keeps order, keeps counts and distributes over an append.
- `Paging`: the paginator's page count and page slice. The page sizes are 10 on the index and 5 elsewhere.
- `Models`: the rows, `Group.__str__`, `Post.__str__`, newest-first order, and the column widths.
- `FollowGraph`: the follow table, and what following and unfollowing do to it.
- `Store`: the class, its invariant `Valid()`, the views and the handlers.
- `StoreLemmas`: facts that relate several views and tables.

`Valid()` is the store invariant. It says:

- every reference points at an existing row;
- post ids are unique;
- group ids and slugs are unique, and group titles and slugs fit their columns;
- posts are listed newest first;
- no timestamp is later than the clock;
- the follow table has no self-edge and no duplicated row.

Every method keeps `Valid()`. Each method's `ensures` states its new tables in
terms of the old ones. The pure functions it is stated with (`Subscribe`,
`Unsubscribe`, `Filter`, `Page`) carry their own lemmas: idempotence, round
trips, row multiplicities, and preserved order.

Modelling decisions:

- A logged-in requester is a `UserId` in the user table. The profile view, which anonymous visitors may open, takes an `Option<UserId>`. A username in a URL is the user's id.
- `pub_date` and a comment's `created` are ticks of a monotonically increasing `clock`. So timestamps are distinct and the newest post is at the head of the post table.
- A view returns the whole ordered list it pages over, as the paginator holds it. Page `k` of that list is `Paging.Page(list, size, k)`, and only page numbers in range are modelled.
- Form validation is an opaque flag `formValid`. When it is true, the submitted group is required to be an existing group (a model form's choice field only accepts existing rows).
- `add_comment` tests `form.is_valid` without calling it, and a bound method is always true. The form is built from `request.POST or None`. A POST with no fields therefore gives an unbound form, which has no errors, and its `save(commit=False)` builds a comment with empty text that is saved. A POST with fields that do not validate reaches `form.save(commit=False)` on a bound form with errors, which raises: the request fails (`ServerError`) and nothing is saved. With valid data, one comment with the submitted text is added. The method takes the submitted text as an `Option`, with `None` for a POST without fields.
- `profile_follow` checks `author != request.user` (posts/views.py:153). The model follows the code: `Valid()` excludes self-edges, and every method ensures `Valid()`.
- The `Follow` model has no uniqueness constraint, so the follow table is a sequence of rows in which a duplicate could be represented. The guard in `profile_follow` keeps it free of duplicates. Unfollowing deletes every matching row.

## Model

| member | source | states |
|---|---|---|
| `Models.GroupStr` | posts/models.py:12-13 | a group displays as its title |
| `Models.PostStr` | posts/models.py:33-34 | a post displays as the first 15 characters of its text, or the whole text if it is shorter |
| `Paging.NumPages` | posts/views.py:15-17 | the page count is at least one, and exactly one for an empty list; the pages hold every item, and the last page is not empty unless the list is |
| `Paging.Page` | posts/views.py:15-17 | page k holds exactly the list items at positions (k-1)·n up to min(k·n, len), in list order |
| `Paging.ItemOnItsPage` | posts/views.py:28-30 | every item of the list is on page i/n+1 at offset i mod n, and that page exists |
| `Paging.PageIsFull` | posts/views.py:61-63 | no page holds more than n items, and every page but the last holds exactly n |
| `Paging.PageKeepsPairwise` | posts/views.py:144-146 | a page keeps the list's order relations, so a page of a newest-first list is newest first |
| `Paging.FirstPageIsPrefix` | posts/tests/test_views.py:116-119 | page 1 exists for every list and is its first min(n, len) items |
| `Paging.SixteenPostsOnTheIndex` | posts/tests/test_views.py:201-213 | 16 posts at 10 per page make 2 pages, of 10 and 6 items |
| `Paging.ElevenPostsInAGroup` | posts/tests/test_views.py:102-119 | 11 posts at 5 per page make 3 pages, and page 1 is the first five posts |
| `FollowGraph.Subscribe` | posts/views.py:153-155 | after following, the edges are the old ones plus user→author, and that edge is added only when author ≠ user |
| `FollowGraph.SubscribeRows` | posts/views.py:153-156 | following oneself, or an author already followed, leaves the table unchanged; otherwise exactly one row user→author is added and the other rows are kept |
| `FollowGraph.SubscribeIdempotent` | posts/views.py:153-155 | following twice gives the same table as following once |
| `FollowGraph.SubscribeKeepsSound` | posts/views.py:153-155 | following never creates a self-edge or a duplicate row |
| `FollowGraph.AtMostOneRow` | posts/views.py:153-155 | in a sound table each edge has at most one row |
| `FollowGraph.Unsubscribe` | posts/views.py:163-165 | after unfollowing, the edges are the old ones less user→author, and that edge is removed only when author ≠ user |
| `FollowGraph.UnsubscribeRows` | posts/views.py:163-167 | unfollowing oneself or an author not followed is a no-op; otherwise no user→author row remains and every other row keeps its multiplicity |
| `FollowGraph.UnsubscribeKeepsSound` | posts/views.py:163-165 | unfollowing keeps the table free of self-edges and duplicates |
| `FollowGraph.UnsubscribeUndoesSubscribe` | posts/views.py:150-167 | unfollowing right after a follow that created the edge gives back the original table |
| `FollowGraph.SubscribeUndoesUnsubscribe` | posts/views.py:150-167 | in a sound table, following again right after unfollowing an existing edge gives back the same rows |
| `Store.Store.IndexPage` | posts/views.py:13-17 | page k of the index holds exactly the posts at positions (k-1)·10 up to min(k·10, len) of the post table, in that order, so at most 10 of them, newest first |
| `Store.Store.AuthorPosts` | posts/views.py:59 | the author's post list is exactly the posts they wrote, newest first, each once |
| `Store.Store.GroupPosts` | posts/views.py:25-30 | a missing slug is a 404; otherwise the group with that slug and exactly the posts in that group, each with its multiplicity in the post table (so each once when ids are distinct), newest first |
| `Store.Store.Profile` | posts/views.py:57-69 | a missing user is a 404; otherwise exactly the author's posts, each once, and their count, which is the number of distinct posts the author wrote; `following` is false for an anonymous requester and otherwise true exactly when the edge requester→author exists |
| `Store.Store.PostPage` | posts/views.py:82-86 | the post is found by id and author or it is a 404; the count is the length of the author's post list, which is the number of distinct posts the author wrote; the comments are exactly those on the post, each as many times as it occurs in the comment table |
| `Store.Store.FollowIndex` | posts/views.py:141-147 | the feed is exactly the posts whose author the requester follows, newest first, each once |
| `Store.Store.NewPost` | posts/views.py:41-50 | a valid submission adds exactly one post at the head of the list: the requester's, dated now, with a fresh id and the submitted text and group; the author's post count grows by one; otherwise nothing changes |
| `Store.Store.PostEdit` | posts/views.py:98-112 | a missing post is a 404; edits by anyone but the author, a GET and an invalid form change nothing and never fail; the author's valid submission replaces that post's text and group and keeps its id, author, date, position and the post count |
| `Store.Store.AddComment` | posts/views.py:128-137 | a missing post is a 404; a valid POST appends one comment on the target post by the requester, dated now, with the submitted text; a POST without fields appends one with empty text; a POST with invalid fields fails with nothing saved; a GET changes nothing |
| `Store.Store.ProfileFollow` | posts/views.py:150-157 | a missing author is a 404; the table becomes `Subscribe` of the old one, and the request never fails, a self-follow or repeated follow being a no-op; afterwards the profile's following flag is true for a different author and the feed gains exactly that author's posts |
| `Store.Store.ProfileUnfollow` | posts/views.py:160-167 | a missing author is a 404; the table becomes `Unsubscribe` of the old one, and the request never fails, unfollowing oneself or an author not followed being a no-op; afterwards the following flag is false and the feed loses exactly that author's posts |
| `Store.Store.AddGroup` | posts/models.py:7-10 | a group is created exactly when its slug is unused and its title and slug fit their columns |
| `Store.Store.DeleteUser` | posts/models.py:23-55 | removes the user, their posts, the comments on those posts, their own comments, and every follow row with them at either end; every other row is kept in order |
| `Store.Store.DeletePost` | posts/models.py:41-43 | removes the post and exactly the comments on it |
| `Store.Store.DeleteGroup` | posts/models.py:25-29 | removes the group and clears the group of exactly its posts; every post keeps every other field and its position |
| `Store.PostCountCountsPosts` | posts/views.py:59-60 | the author's post count is the number of distinct posts they wrote |
| `StoreLemmas.PostCountsAgree` | posts/views.py:84 | the post page shows the same post count for the author as the author's profile |
| `StoreLemmas.ListingsAreNewestFirst` | posts/models.py:36-37 | the post table, the feed, the profile and the group listings are in non-increasing `pub_date` order |
| `StoreLemmas.ListingPagesAreNewestFirst` | posts/views.py:28-146 | in a valid store every in-range page of the group, profile and feed listings, five posts to a page, is newest first |
| `StoreLemmas.NoDanglingUser` | posts/models.py:23-55 | in a valid store no post, comment or follow row refers to a missing user |
| `StoreLemmas.FollowTableIsAGraph` | posts/views.py:153-155 | in a valid store nobody follows themself and each edge has at most one row |
| `StoreLemmas.GroupSlugsAreUnique` | posts/models.py:8-9 | no two groups share a slug; slugs are at most 50 characters and titles at most 200 |

## Left out

- Template rendering, context values other than the ones above, status codes, redirects, and the 404/500 page handlers (posts/views.py:115-125). These are framework plumbing. The model reduces a handler's response to an `Outcome`.
- `login_required` and sessions. A logged-in requester is a user id that the store knows.
- `cache_page(20)` on the index and `cache.clear()` in `new_post`. This is time-based framework caching, so the model has no cache state.
- How the paginator treats a page number that is not an integer or is out of range. That is library code, so only in-range pages are modelled.
- Form validation. It is an opaque flag, and the form module is not part of this model. It also covers the slug character check a slug field applies in forms, and whether post text is required.
- The image field and file uploads. These are file I/O.
- Query mechanics: `select_related`, joins, and the different exception that `Post.objects.get` raises in `add_comment`. The model reports both missing-post cases as `NotFound`. Executed literally, the feed's join would repeat a post once per duplicate follow row. `Valid()` rules out duplicate rows, and the model's feed lists each post once.
- Comment order. `Comment` declares no ordering, so the model keeps comments in creation order.
- User accounts are created and deleted by the authentication framework. `AddUser` and `DeleteUser` stand in for it, and the user table is a set of ids with no other fields.
- Concurrency. Each handler is one atomic step and the handlers run one after another. `profile_follow` checks for an existing row and then inserts one, and the follow table has no uniqueness constraint (posts/models.py:51-55). Two concurrent follow requests could both pass the check and insert duplicate rows; `Valid()` excludes such a table, so the model does not capture that race.
- Real timestamps. Two posts created in one batch could share a `pub_date`; the model's clock gives every post a distinct, later date.
