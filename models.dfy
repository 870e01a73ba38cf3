/**
 * The rows of the blog's tables and the rules its model classes declare
 * (posts/models.py). Users are identified by their id; the user table itself
 * belongs to the authentication framework and is only a set of ids here.
 */
module Models {
  import opened Wrappers
  import opened Seqs

  type UserId = nat
  type PostId = nat
  type GroupId = nat

  /** Column widths of Group.title and Group.slug. */
  const TitleMaxLength: nat := 200
  const SlugMaxLength: nat := 50
  /** How much of a post's text its display string shows. */
  const PostStrLength: nat := 15

  /** A category of posts; `slug` names it in URLs and is unique among groups. */
  datatype Group = Group(id: GroupId, title: string, slug: string, description: string)

  /**
   * A post. `pubDate` is set once, when the post is created, from the store's
   * clock; `author` is mandatory, `group` may be empty. The image field is not modelled.
   */
  datatype Post = Post(id: PostId, text: string, pubDate: nat, author: UserId, group: Option<GroupId>)

  /** A comment on `post`, written by `author`. */
  datatype Comment = Comment(post: PostId, author: UserId, text: string, created: nat)

  /** A subscription of `user` to the posts of `author`. */
  datatype Follow = Follow(user: UserId, author: UserId)

  /** A title and a slug fit their columns. */
  predicate FieldsFit(title: string, slug: string) {
    |title| <= TitleMaxLength && |slug| <= SlugMaxLength
  }

  /** Group.__str__: a group displays as its title. */
  function GroupStr(g: Group): (s: string)
    ensures s == g.title
  {
    g.title
  }

  /** Post.__str__: the first fifteen characters of the text, or all of a shorter text. */
  function PostStr(p: Post): (s: string)
    ensures |s| == Min(|p.text|, PostStrLength)
    ensures s == p.text[..|s|]
  {
    if |p.text| <= PostStrLength then p.text else p.text[..PostStrLength]
  }

  /** `a` may be listed before `b` under Post.Meta.ordering ("-pub_date"). */
  function Newer(a: Post, b: Post): bool {
    a.pubDate >= b.pubDate
  }

  /** The posts are listed newest first: publication dates never increase along the list. */
  ghost predicate NewestFirst(ps: seq<Post>) {
    Pairwise(ps, Newer)
  }

  function DistinctIds(a: Post, b: Post): bool {
    a.id != b.id
  }

  /** Two groups are different rows: their ids differ and so do their slugs. */
  function DistinctGroups(a: Group, b: Group): bool {
    a.id != b.id && a.slug != b.slug
  }
}
