/**
 * The read views of the posts app: index, group_posts, profile, follow_index and post_view.
 * Each selects rows from the tables, keeps them in canonical newest-first order and, for the
 * feeds, serves one page of PageSize items.
 */
module Feeds {
  import opened Common
  import opened Models
  import opened Paginate
  import Follows
  import Seqs

  datatype GroupContext = GroupContext(group: Group, page: Page<Post>)
  datatype ProfileContext = ProfileContext(author: User, page: Page<Post>, following: bool)
  datatype PostContext = PostContext(post: Post, comments: seq<Comment>)

  // ---- Selections ----

  /** group.posts.all(): the posts of one group, newest first. */
  function GroupSelection(posts: seq<Post>, groupId: nat): (r: seq<Post>)
    ensures forall p :: p in r <==> p in posts && p.group == Some(groupId)
    ensures PostsNewestFirst(posts) ==> PostsNewestFirst(r)
  {
    var keep := (p: Post) => p.group == Some(groupId);
    Seqs.FilterKeepsPairwise(posts, keep, PostNewer); Seqs.Filter(posts, keep)
  }

  /** author.posts.all(): the posts of one author, newest first. */
  function AuthorSelection(posts: seq<Post>, authorId: nat): (r: seq<Post>)
    ensures forall p :: p in r <==> p in posts && p.author == authorId
    ensures PostsNewestFirst(posts) ==> PostsNewestFirst(r)
  {
    var keep := (p: Post) => p.author == authorId;
    Seqs.FilterKeepsPairwise(posts, keep, PostNewer); Seqs.Filter(posts, keep)
  }

  /** Post.objects.filter(author__following__user=user): posts of the authors `user` follows. */
  function FollowSelection(posts: seq<Post>, follows: seq<Follow>, userId: nat): (r: seq<Post>)
    ensures forall p :: p in r <==> p in posts && Follows.IsFollowing(follows, userId, p.author)
    ensures PostsNewestFirst(posts) ==> PostsNewestFirst(r)
  {
    var keep := (p: Post) => Follows.IsFollowing(follows, userId, p.author);
    Seqs.FilterKeepsPairwise(posts, keep, PostNewer); Seqs.Filter(posts, keep)
  }

  /** post.comments.all(): the comments on one post, newest first. */
  function CommentsOf(comments: seq<Comment>, postId: nat): (r: seq<Comment>)
    ensures forall c :: c in r <==> c in comments && c.post == postId
    ensures CommentsNewestFirst(comments) ==> CommentsNewestFirst(r)
  {
    var keep := (c: Comment) => c.post == postId;
    Seqs.FilterKeepsPairwise(comments, keep, CommentNewer); Seqs.Filter(comments, keep)
  }

  /**
   * A page of a newest-first selection is itself newest first, and holds only items of the
   * selection.
   */
  lemma PageOfSelection(s: seq<Post>, requested: Option<int>)
    ensures forall p :: p in GetPage(s, requested).items ==> p in s
    ensures PostsNewestFirst(s) ==> PostsNewestFirst(GetPage(s, requested).items)
  {
    var pg := GetPage(s, requested);
    var k := pg.number;
    var lo := (k - 1) * PageSize;
    assert pg.items == s[lo .. lo + |pg.items|];
    if PostsNewestFirst(s) {
      Seqs.SliceKeepsPairwise(s, lo, lo + |pg.items|, PostNewer);
    }
  }

  // ---- Views ----

  /** index: all posts, newest first, one page of them. */
  function Index(posts: seq<Post>, requested: Option<int>): (r: Page<Post>)
    ensures r == GetPage(posts, requested)
    ensures r.number == ResolvePage(|posts|, requested)
    ensures r.numPages == NumPages(|posts|) && 1 <= r.number <= r.numPages
    ensures |r.items| <= PageSize
    ensures forall i :: 0 <= i < |r.items| ==>
              (r.number - 1) * PageSize + i < |posts| && r.items[i] == posts[(r.number - 1) * PageSize + i]
    ensures PostsNewestFirst(posts) ==> PostsNewestFirst(r.items)
  {
    PageOfSelection(posts, requested);
    GetPage(posts, requested)
  }

  /** group_posts: 404 for an unknown slug, else the group and a page of its posts. */
  function GroupPosts(groups: seq<Group>, posts: seq<Post>, slug: string, requested: Option<int>): (r: Response<GroupContext>)
    ensures r.Render? || r.NotFound?
    ensures r.NotFound? <==> forall g :: g in groups ==> g.slug != slug
    ensures r.Render? ==> r.context.group in groups && r.context.group.slug == slug
    ensures r.Render? ==> r.context.page == GetPage(GroupSelection(posts, r.context.group.id), requested)
    ensures r.Render? ==> forall p :: p in r.context.page.items ==> p in posts && p.group == Some(r.context.group.id)
    ensures r.Render? && PostsNewestFirst(posts) ==> PostsNewestFirst(r.context.page.items)
  {
    match FindGroupBySlug(groups, slug)
    case None => NotFound
    case Some(g) =>
      PageOfSelection(GroupSelection(posts, g.id), requested);
      Render(GroupContext(g, GetPage(GroupSelection(posts, g.id), requested)))
  }

  /**
   * profile: 404 for an unknown username, else the author, a page of the author's posts and
   * the `following` flag, which is false for an anonymous requester and otherwise says whether
   * the requester follows the author.
   */
  function Profile(users: seq<User>, posts: seq<Post>, follows: seq<Follow>, requester: Option<User>,
                   username: string, requested: Option<int>): (r: Response<ProfileContext>)
    ensures r.Render? || r.NotFound?
    ensures r.NotFound? <==> forall u :: u in users ==> u.username != username
    ensures r.Render? ==> r.context.author in users && r.context.author.username == username
    ensures r.Render? ==> r.context.page == GetPage(AuthorSelection(posts, r.context.author.id), requested)
    ensures r.Render? ==> forall p :: p in r.context.page.items ==> p in posts && p.author == r.context.author.id
    ensures r.Render? ==>
              (r.context.following <==> requester.Some? && Follows.IsFollowing(follows, requester.value.id, r.context.author.id))
    ensures r.Render? && requester.None? ==> !r.context.following
  {
    match FindUserByName(users, username)
    case None => NotFound
    case Some(author) =>
      var following := requester.Some? && Follows.IsFollowing(follows, requester.value.id, author.id);
      PageOfSelection(AuthorSelection(posts, author.id), requested);
      Render(ProfileContext(author, GetPage(AuthorSelection(posts, author.id), requested), following))
  }

  /** follow_index: login required; a page of the posts of the authors the requester follows. */
  function FollowIndex(posts: seq<Post>, follows: seq<Follow>, requester: Option<User>, requested: Option<int>): (r: Response<Page<Post>>)
    ensures r.Render? || r.Redirect?
    ensures r.Redirect? <==> requester.None?
    ensures r.Redirect? ==> r.to == Login
    ensures r.Render? ==> r.context == GetPage(FollowSelection(posts, follows, requester.value.id), requested)
    ensures r.Render? ==> forall p :: p in r.context.items ==>
              p in posts && Follows.IsFollowing(follows, requester.value.id, p.author)
  {
    match requester
    case None => Redirect(Login)
    case Some(u) =>
      PageOfSelection(FollowSelection(posts, follows, u.id), requested);
      Render(GetPage(FollowSelection(posts, follows, u.id), requested))
  }

  /** post_view: 404 unless the post exists and is written by `username`; else the post and its comments. */
  function PostView(users: seq<User>, posts: seq<Post>, comments: seq<Comment>, username: string, postId: nat): (r: Response<PostContext>)
    requires UsersUnique(users)
    ensures r.Render? || r.NotFound?
    ensures r.NotFound? <==> forall p :: p in posts && p.id == postId ==> !WrittenBy(users, p, username)
    ensures r.Render? ==> r.context.post in posts && r.context.post.id == postId && WrittenBy(users, r.context.post, username)
    ensures r.Render? ==> forall c :: c in r.context.comments <==> c in comments && c.post == postId
    ensures r.Render? && CommentsNewestFirst(comments) ==> CommentsNewestFirst(r.context.comments)
  {
    match FindPost(users, posts, postId, username)
    case None => NotFound
    case Some(p) => Render(PostContext(p, CommentsOf(comments, p.id)))
  }

  // ---- Properties of the feeds ----

  /**
   * A newest-first selection is the only newest-first arrangement of its posts: any sequence
   * in that order holding exactly the group's posts is the group feed.
   */
  lemma GroupSelectionIsCanonical(posts: seq<Post>, groupId: nat, s: seq<Post>)
    requires PostsNewestFirst(posts) && PostsNewestFirst(s)
    requires forall p :: p in s <==> p in posts && p.group == Some(groupId)
    ensures s == GroupSelection(posts, groupId)
  {
    Seqs.StrictOrderDeterminesSequence(s, GroupSelection(posts, groupId), PostNewer);
  }

  /** The same for the follow feed: it is the newest-first listing of the followed authors' posts. */
  lemma FollowSelectionIsCanonical(posts: seq<Post>, follows: seq<Follow>, userId: nat, s: seq<Post>)
    requires PostsNewestFirst(posts) && PostsNewestFirst(s)
    requires forall p :: p in s <==> p in posts && Follows.IsFollowing(follows, userId, p.author)
    ensures s == FollowSelection(posts, follows, userId)
  {
    Seqs.StrictOrderDeterminesSequence(s, FollowSelection(posts, follows, userId), PostNewer);
  }

  /**
   * Every post of a feed is on exactly one of its pages: concatenating pages 1..NumPages of the
   * follow feed gives the follow feed, so no post is left out and none is repeated.
   */
  lemma FollowFeedPagesPartition(posts: seq<Post>, follows: seq<Follow>, userId: nat)
    ensures var s := FollowSelection(posts, follows, userId);
            PagesUpTo(s, NumPages(|s|)) == s
  {
    PagesPartition(FollowSelection(posts, follows, userId));
  }

  /** When nobody follows themself, the requester's own posts never reach their follow feed. */
  lemma OwnPostsNotInFollowFeed(posts: seq<Post>, follows: seq<Follow>, userId: nat, p: Post)
    requires Follows.NoSelfEdges(follows)
    requires p.author == userId
    ensures p !in FollowSelection(posts, follows, userId)
  {
  }
}
