/**
 * The post table: the create-post schema, the guarded insert `createPost`,
 * and the two queries `getPosts` and `getPostDetailsBySlug`.
 *
 * Tables are sequences of rows in insertion order; the user table is the one
 * of the credential store, keyed by email, and the queries join authors by id.
 */
module PostModel {
  import opened Results
  import opened Auth
  import opened Sorting

  /** At most this many comments come with a post's details. */
  const CommentLimit: nat := 10
  const UserMissing := "User does not exists"

  datatype Author = Author(firstName: string, lastName: string)

  datatype Post = Post(
    id: nat,
    title: string,
    slug: string,
    content: string,
    authorId: UserId,
    createdAt: int,
    updatedAt: int,
    publishedAt: Option<int>)

  datatype Comment = Comment(id: nat, postId: nat, authorId: UserId, text: string, createdAt: int)

  /** A row of `getPosts`: the post's listed fields and its author's names. */
  datatype PostSummary = PostSummary(
    id: nat,
    title: string,
    slug: string,
    content: string,
    createdAt: int,
    updatedAt: int,
    publishedAt: Option<int>,
    author: Option<Author>)

  /** A comment as selected with a post's details. */
  datatype CommentView = CommentView(createdAt: int, text: string, author: Option<Author>)

  datatype PostDetails = PostDetails(post: Post, comments: seq<CommentView>)

  datatype CreatePostInput = CreatePostInput(title: string, slug: string, content: string, authorId: UserId)

  /** `{ data, error }` as returned by `createPost`. */
  datatype CreateReply = CreateReply(data: Option<Post>, error: Option<string>)

  // ----- createPostSchema -----

  const TitleMessage := "Title must contain at least 2 character(s)"
  const SlugMessage := "Slug must contain at least 2 character(s)"
  const ContentMessage := "Content must contain at least 2 character(s)"

  datatype SchemaIssue = TooShort(path: string, minimum: nat, message: string) | NotCuid(path: string)

  /**
   * Every issue the schema finds, field by field, each once and no other.
   * `isCuid` stands for the schema library's cuid format check.
   */
  function SchemaIssues(input: CreatePostInput, isCuid: UserId -> bool): (issues: seq<SchemaIssue>)
    ensures issues == [] <==> |input.title| >= 2 && |input.slug| >= 1 && |input.content| >= 5 && isCuid(input.authorId)
    ensures TooShort("title", 2, TitleMessage) in issues <==> |input.title| < 2
    ensures TooShort("slug", 1, SlugMessage) in issues <==> |input.slug| < 1
    ensures TooShort("content", 5, ContentMessage) in issues <==> |input.content| < 5
    ensures NotCuid("authorId") in issues <==> !isCuid(input.authorId)
    ensures |issues| <= 4
    ensures forall k :: 0 <= k < |issues| ==>
      issues[k] in [TooShort("title", 2, TitleMessage), TooShort("slug", 1, SlugMessage),
                    TooShort("content", 5, ContentMessage), NotCuid("authorId")]
    ensures forall i, j :: 0 <= i < j < |issues| ==> issues[i] != issues[j]
  {
    (if |input.title| < 2 then [TooShort("title", 2, TitleMessage)] else [])
    + (if |input.slug| < 1 then [TooShort("slug", 1, SlugMessage)] else [])
    + (if |input.content| < 5 then [TooShort("content", 5, ContentMessage)] else [])
    + (if !isCuid(input.authorId) then [NotCuid("authorId")] else [])
  }

  // ----- the author join -----

  predicate UserWithId(users: map<string, UserRecord>, id: UserId)
  {
    exists e :: e in users && users[e].id == id
  }

  /** The names of the user with this id, if there is one. */
  ghost function AuthorOf(users: map<string, UserRecord>, id: UserId): (a: Option<Author>)
    ensures a.Some? <==> UserWithId(users, id)
    ensures a.Some? ==> exists e :: e in users && users[e].id == id && a.value == Author(users[e].firstName, users[e].lastName)
  {
    if UserWithId(users, id) then
      var e :| e in users && users[e].id == id;
      Some(Author(users[e].firstName, users[e].lastName))
    else None
  }

  /** With unique ids, the author found is the one filed under any email with that id. */
  lemma AuthorOfUnique(users: map<string, UserRecord>, nextId: nat, email: string)
    requires TableInvariant(users, nextId)
    requires email in users
    ensures AuthorOf(users, users[email].id) == Some(Author(users[email].firstName, users[email].lastName))
  {
  }

  // ----- getPosts -----

  ghost function Summarize(p: Post, users: map<string, UserRecord>): PostSummary
  {
    PostSummary(p.id, p.title, p.slug, p.content, p.createdAt, p.updatedAt, p.publishedAt, AuthorOf(users, p.authorId))
  }

  ghost function Summaries(posts: seq<Post>, users: map<string, UserRecord>): (r: seq<PostSummary>)
    ensures |r| == |posts|
    ensures forall i :: 0 <= i < |posts| ==> r[i] == Summarize(posts[i], users)
  {
    seq(|posts|, i requires 0 <= i < |posts| => Summarize(posts[i], users))
  }

  function SummaryCreatedAt(s: PostSummary): int
  {
    s.createdAt
  }

  /** `getPosts`: every post, once, as a summary, newest first. */
  ghost function GetPosts(posts: seq<Post>, users: map<string, UserRecord>): (r: seq<PostSummary>)
    ensures |r| == |posts|
    ensures multiset(r) == multiset(Summaries(posts, users))
    ensures SortedDesc(r, SummaryCreatedAt)
  {
    SortDesc(Summaries(posts, users), SummaryCreatedAt)
  }

  /** Every post of the table is listed by `getPosts`. */
  lemma GetPostsListsEveryPost(posts: seq<Post>, users: map<string, UserRecord>, i: int)
    requires 0 <= i < |posts|
    ensures Summarize(posts[i], users) in GetPosts(posts, users)
  {
    var all := Summaries(posts, users);
    assert all[i] in multiset(all);
    assert Summarize(posts[i], users) in multiset(GetPosts(posts, users));
  }

  /** Everything `getPosts` lists is the summary of a post of the table. */
  lemma GetPostsListsOnlyPosts(posts: seq<Post>, users: map<string, UserRecord>, s: PostSummary)
    requires s in GetPosts(posts, users)
    ensures exists i :: 0 <= i < |posts| && s == Summarize(posts[i], users)
  {
    var all := Summaries(posts, users);
    assert s in multiset(GetPosts(posts, users));
    assert s in multiset(all);
    var i :| 0 <= i < |all| && all[i] == s;
  }

  // ----- getPostDetailsBySlug -----

  predicate PublishedWithSlug(p: Post, slug: string)
  {
    p.slug == slug && p.publishedAt.Some?
  }

  /** The first published post with this slug, in table order. */
  function FindPublished(posts: seq<Post>, slug: string): (r: Option<Post>)
    ensures r.None? <==> forall i :: 0 <= i < |posts| ==> !PublishedWithSlug(posts[i], slug)
    ensures r.Some? ==> exists i :: 0 <= i < |posts| && posts[i] == r.value && PublishedWithSlug(posts[i], slug)
                                    && forall j :: 0 <= j < i ==> !PublishedWithSlug(posts[j], slug)
  {
    if posts == [] then None
    else if PublishedWithSlug(posts[0], slug) then Some(posts[0])
    else
      var r := FindPublished(posts[1..], slug);
      assert forall i :: 1 <= i < |posts| ==> posts[i] == posts[1..][i - 1];
      r
  }

  /** The comments of one post, in table order, each as often as the table holds it. */
  function CommentsOf(comments: seq<Comment>, postId: nat): (r: seq<Comment>)
    ensures forall c :: c in r <==> c in comments && c.postId == postId
    ensures forall c :: multiset(r)[c] == if c.postId == postId then multiset(comments)[c] else 0
  {
    if comments == [] then []
    else
      var rest := CommentsOf(comments[1..], postId);
      assert comments == [comments[0]] + comments[1..];
      assert forall c :: c in comments <==> c == comments[0] || c in comments[1..];
      if comments[0].postId == postId then [comments[0]] + rest else rest
  }

  ghost function View(c: Comment, users: map<string, UserRecord>): CommentView
  {
    CommentView(c.createdAt, c.text, AuthorOf(users, c.authorId))
  }

  ghost function Views(cs: seq<Comment>, users: map<string, UserRecord>): (r: seq<CommentView>)
    ensures |r| == |cs|
    ensures forall i :: 0 <= i < |cs| ==> r[i] == View(cs[i], users)
  {
    seq(|cs|, i requires 0 <= i < |cs| => View(cs[i], users))
  }

  function ViewCreatedAt(v: CommentView): int
  {
    v.createdAt
  }

  /** How many comments `take` yields out of `available`. */
  function Taken(available: nat): nat
  {
    if available < CommentLimit then available else CommentLimit
  }

  /**
   * The newest `CommentLimit` comments of a post, newest first: as many as
   * the post has, up to the limit, each taken at most as often as it occurs.
   * A comment of the post taken fewer times than it occurs (one left out) is
   * no newer than any of those taken, and is only left out at the limit.
   * That each view taken is the view of one of the post's comments follows
   * from the sub-multiset clause; it is kept as the form a reader looks for.
   */
  ghost function NewestComments(comments: seq<Comment>, users: map<string, UserRecord>, postId: nat): (r: seq<CommentView>)
    ensures |r| == Taken(|CommentsOf(comments, postId)|)
    ensures multiset(r) <= multiset(Views(CommentsOf(comments, postId), users))
    ensures SortedDesc(r, ViewCreatedAt)
    ensures forall v :: v in r ==> exists c :: c in comments && c.postId == postId && v == View(c, users)
    ensures forall v :: multiset(r)[v] < multiset(Views(CommentsOf(comments, postId), users))[v] ==>
      |r| == CommentLimit && forall w :: w in r ==> w.createdAt >= v.createdAt
  {
    var all := SortDesc(Views(CommentsOf(comments, postId), users), ViewCreatedAt);
    var n := Taken(|all|);
    var r := all[..n];
    PrefixSortedDesc(all, ViewCreatedAt, n);
    PrefixMultiset(all, n);
    TakenCommentsBelongToPost(comments, users, postId, all, r);
    OmittedCommentsNotNewer(comments, users, postId, all, r);
    r
  }

  /** A prefix holds each element at most as often as the whole sequence. */
  lemma PrefixMultiset<T>(s: seq<T>, n: nat)
    requires n <= |s|
    ensures multiset(s[..n]) <= multiset(s)
  {
    assert s == s[..n] + s[n..];
  }

  /** Each comment taken is a comment of the post. */
  lemma TakenCommentsBelongToPost(
    comments: seq<Comment>, users: map<string, UserRecord>, postId: nat,
    all: seq<CommentView>, r: seq<CommentView>)
    requires multiset(all) == multiset(Views(CommentsOf(comments, postId), users))
    requires r <= all
    ensures forall v :: v in r ==> exists c :: c in comments && c.postId == postId && v == View(c, users)
  {
    var own := CommentsOf(comments, postId);
    var views := Views(own, users);
    forall v | v in r
      ensures exists c :: c in comments && c.postId == postId && v == View(c, users)
    {
      assert v in all;
      assert v in multiset(views);
      var i :| 0 <= i < |views| && views[i] == v;
      assert own[i] in own;
    }
  }

  /**
   * A comment of the post that the prefix holds fewer times than the post has
   * it lies past the prefix, so the prefix is full and no newer than it.
   */
  lemma OmittedCommentsNotNewer(
    comments: seq<Comment>, users: map<string, UserRecord>, postId: nat,
    all: seq<CommentView>, r: seq<CommentView>)
    requires multiset(all) == multiset(Views(CommentsOf(comments, postId), users))
    requires SortedDesc(all, ViewCreatedAt)
    requires r == all[..Taken(|all|)]
    ensures forall v :: multiset(r)[v] < multiset(Views(CommentsOf(comments, postId), users))[v] ==>
      |r| == CommentLimit && forall w :: w in r ==> w.createdAt >= v.createdAt
  {
    var n := |r|;
    assert all == r + all[n..];
    forall v | multiset(r)[v] < multiset(all)[v]
      ensures |r| == CommentLimit && forall w :: w in r ==> w.createdAt >= v.createdAt
    {
      assert multiset(all)[v] == multiset(r)[v] + multiset(all[n..])[v];
      assert v in all[n..];
      var k :| n <= k < |all| && all[k] == v;
      forall w | w in r
        ensures w.createdAt >= v.createdAt
      {
        var j :| 0 <= j < n && r[j] == w;
        assert ViewCreatedAt(all[j]) >= ViewCreatedAt(all[k]);
      }
    }
  }

  /**
   * `getPostDetailsBySlug`: the first published post with the slug, with its
   * newest comments; nothing when no published post has that slug. Comments
   * are joined by the post's id, which selects that post's comments alone
   * because post ids are distinct (`PostTable.Valid`).
   */
  ghost function GetPostDetailsBySlug(
    posts: seq<Post>, comments: seq<Comment>, users: map<string, UserRecord>, slug: string): (r: Option<PostDetails>)
    ensures r.None? <==> forall p :: p in posts ==> !PublishedWithSlug(p, slug)
    ensures r.Some? ==> r.value.post in posts && r.value.post.slug == slug && r.value.post.publishedAt.Some?
    ensures r.Some? ==> FindPublished(posts, slug) == Some(r.value.post)
    ensures r.Some? ==> SortedDesc(r.value.comments, ViewCreatedAt)
    ensures r.Some? ==> |r.value.comments| == Taken(|CommentsOf(comments, r.value.post.id)|)
    ensures r.Some? ==> multiset(r.value.comments) <= multiset(Views(CommentsOf(comments, r.value.post.id), users))
    ensures r.Some? ==> forall v :: v in r.value.comments ==>
      exists c :: c in comments && c.postId == r.value.post.id && v == View(c, users)
    ensures r.Some? ==> forall v ::
      multiset(r.value.comments)[v] < multiset(Views(CommentsOf(comments, r.value.post.id), users))[v] ==>
      |r.value.comments| == CommentLimit && forall w :: w in r.value.comments ==> w.createdAt >= v.createdAt
  {
    match FindPublished(posts, slug)
    case None => None
    case Some(p) => Some(PostDetails(p, NewestComments(comments, users, p.id)))
  }

  /** Appending an unpublished post never changes what a slug lookup finds. */
  lemma {:induction false} FindPublishedIgnoresDraft(posts: seq<Post>, draft: Post, slug: string)
    requires draft.publishedAt.None?
    ensures FindPublished(posts + [draft], slug) == FindPublished(posts, slug)
  {
    if posts != [] {
      assert (posts + [draft])[1..] == posts[1..] + [draft];
      FindPublishedIgnoresDraft(posts[1..], draft, slug);
    }
  }

  // ----- createPost -----

  /** The post table, extended in place by `createPost`. */
  class PostTable {
    var posts: seq<Post>
    var nextId: nat

    ghost predicate Valid()
      reads this
    {
      && (forall i :: 0 <= i < |posts| ==> posts[i].id < nextId)
      && (forall i, j :: 0 <= i < j < |posts| ==> posts[i].id != posts[j].id)
    }

    constructor ()
      ensures Valid()
      ensures posts == [] && nextId == 0
    {
      posts := [];
      nextId := 0;
    }

    /**
     * `createPost`: with no user of the given id, an error and no change;
     * otherwise one new, unpublished post stamped `now` is appended and returned.
     */
    method CreatePost(users: map<string, UserRecord>, input: CreatePostInput, now: int) returns (reply: CreateReply)
      requires Valid()
      modifies this
      ensures Valid()
      ensures !UserWithId(users, input.authorId) ==>
        reply == CreateReply(None, Some(UserMissing)) && posts == old(posts) && nextId == old(nextId)
      ensures UserWithId(users, input.authorId) ==>
        var p := Post(old(nextId), input.title, input.slug, input.content, input.authorId, now, now, None);
        reply == CreateReply(Some(p), None) && posts == old(posts) + [p] && nextId == old(nextId) + 1
    {
      if !UserWithId(users, input.authorId) {
        return CreateReply(None, Some(UserMissing));
      }
      var post := Post(nextId, input.title, input.slug, input.content, input.authorId, now, now, None);
      posts := posts + [post];
      nextId := nextId + 1;
      reply := CreateReply(Some(post), None);
    }
  }

  /** A created post is listed by `getPosts` but stays hidden from the slug lookup until published. */
  lemma CreatedPostListedNotPublished(
    posts: seq<Post>, comments: seq<Comment>, users: map<string, UserRecord>, p: Post, slug: string)
    requires p.publishedAt.None?
    ensures Summarize(p, users) in GetPosts(posts + [p], users)
    ensures GetPostDetailsBySlug(posts + [p], comments, users, slug) == GetPostDetailsBySlug(posts, comments, users, slug)
  {
    GetPostsListsEveryPost(posts + [p], users, |posts|);
    FindPublishedIgnoresDraft(posts, p, slug);
  }
}
