/**
 * The records of the posts app (Group, Post, Comment, Follow, and the User they point to),
 * their string forms, their canonical orderings and the on_delete rules that keep the
 * tables consistent when a referenced row goes away.
 */
module Models {
  import opened Common
  import Seqs

  /** A user of the authentication collaborator: a primary key and a unique username. */
  datatype User = User(id: nat, username: string)

  datatype Group = Group(id: nat, title: string, slug: string, description: string)

  /** `pubDate` is the value of a strictly increasing clock at creation (auto_now_add). */
  datatype Post = Post(id: nat, text: string, pubDate: nat, author: nat, group: Option<nat>, image: Option<string>)

  datatype Comment = Comment(id: nat, post: nat, author: nat, text: string, created: nat)

  /** One row of the follow table: `user` follows `author`. */
  datatype Follow = Follow(user: nat, author: nat)

  /** Number of characters Post.__str__ keeps. */
  const StrLength: nat := 15

  /** Group.__str__: the group's title. */
  function GroupStr(g: Group): (r: string)
    ensures r == g.title
  {
    g.title
  }

  /** Post.__str__: the first 15 characters of the text (all of it when it is shorter). */
  function PostStr(p: Post): (r: string)
    ensures |r| == if |p.text| < StrLength then |p.text| else StrLength
    ensures r <= p.text
  {
    if |p.text| <= StrLength then p.text else p.text[..StrLength]
  }

  // ---- Orderings (Meta.ordering) and row identity ----

  /** Post.Meta.ordering = ["-pub_date"]: `a` is listed before `b`. */
  predicate PostNewer(a: Post, b: Post) { a.pubDate > b.pubDate }

  /** Comment.Meta.ordering = ["-created"]: `a` is listed before `b`. */
  predicate CommentNewer(a: Comment, b: Comment) { a.created > b.created }

  predicate DistinctUsers(a: User, b: User) { a.id != b.id && a.username != b.username }
  predicate DistinctGroups(a: Group, b: Group) { a.id != b.id && a.slug != b.slug }
  predicate DistinctPosts(a: Post, b: Post) { a.id != b.id }
  predicate DistinctComments(a: Comment, b: Comment) { a.id != b.id }

  /** Every post collection is listed newest first. */
  ghost predicate PostsNewestFirst(posts: seq<Post>) { Seqs.Pairwise(posts, PostNewer) }

  ghost predicate CommentsNewestFirst(comments: seq<Comment>) { Seqs.Pairwise(comments, CommentNewer) }

  /** Primary keys and usernames are unique in the user table. */
  ghost predicate UsersUnique(users: seq<User>) { Seqs.Pairwise(users, DistinctUsers) }

  /** Primary keys and slugs (SlugField(unique=True)) are unique in the group table. */
  ghost predicate GroupsUnique(groups: seq<Group>) { Seqs.Pairwise(groups, DistinctGroups) }

  ghost predicate PostIdsUnique(posts: seq<Post>) { Seqs.Pairwise(posts, DistinctPosts) }

  ghost predicate CommentIdsUnique(comments: seq<Comment>) { Seqs.Pairwise(comments, DistinctComments) }

  function UserIds(users: seq<User>): set<nat> { set u | u in users :: u.id }
  function GroupIds(groups: seq<Group>): set<nat> { set g | g in groups :: g.id }
  function PostIds(posts: seq<Post>): set<nat> { set p | p in posts :: p.id }

  /** Foreign keys of posts: the author exists, and so does the group when there is one. */
  ghost predicate PostsLinked(posts: seq<Post>, users: seq<User>, groups: seq<Group>)
  {
    forall p :: p in posts ==> p.author in UserIds(users) && (p.group.Some? ==> p.group.value in GroupIds(groups))
  }

  ghost predicate CommentsLinked(comments: seq<Comment>, users: seq<User>, posts: seq<Post>)
  {
    forall c :: c in comments ==> c.author in UserIds(users) && c.post in PostIds(posts)
  }

  ghost predicate EdgesLinked(follows: seq<Follow>, users: seq<User>)
  {
    forall e :: e in follows ==> e.user in UserIds(users) && e.author in UserIds(users)
  }

  // ---- Lookups (get_object_or_404) ----

  /** Group.objects.get(slug=slug), or None when no group has that slug. */
  function FindGroupBySlug(groups: seq<Group>, slug: string): (r: Option<Group>)
    ensures r.Some? ==> r.value in groups && r.value.slug == slug
    ensures r.None? <==> forall g :: g in groups ==> g.slug != slug
  {
    if groups == [] then None
    else if groups[0].slug == slug then Some(groups[0])
    else FindGroupBySlug(groups[1..], slug)
  }

  /** User.objects.get(username=username), or None when no user has that username. */
  function FindUserByName(users: seq<User>, username: string): (r: Option<User>)
    ensures r.Some? ==> r.value in users && r.value.username == username
    ensures r.None? <==> forall u :: u in users ==> u.username != username
  {
    if users == [] then None
    else if users[0].username == username then Some(users[0])
    else FindUserByName(users[1..], username)
  }

  /** Post.objects.get(id=postId, author=authorId), or None. */
  function FindPostOf(posts: seq<Post>, postId: nat, authorId: nat): (r: Option<Post>)
    ensures r.Some? ==> r.value in posts && r.value.id == postId && r.value.author == authorId
    ensures r.None? <==> forall p :: p in posts ==> !(p.id == postId && p.author == authorId)
  {
    if posts == [] then None
    else if posts[0].id == postId && posts[0].author == authorId then Some(posts[0])
    else FindPostOf(posts[1..], postId, authorId)
  }

  /** The post's author, looked up in the user table, has this username. */
  ghost predicate WrittenBy(users: seq<User>, p: Post, username: string)
  {
    exists u :: u in users && u.id == p.author && u.username == username
  }

  /** Post.objects.get(id=postId, author__username=username), or None. */
  function FindPost(users: seq<User>, posts: seq<Post>, postId: nat, username: string): (r: Option<Post>)
    requires UsersUnique(users)
    ensures r.Some? ==> r.value in posts && r.value.id == postId && WrittenBy(users, r.value, username)
    ensures r.None? <==> forall p :: p in posts && p.id == postId ==> !WrittenBy(users, p, username)
  {
    match FindUserByName(users, username)
    case None => None
    case Some(u) =>
      var r := FindPostOf(posts, postId, u.id);
      assert r.None? ==> forall p :: p in posts && p.id == postId ==> !WrittenBy(users, p, username) by {
        forall p, v | p in posts && p.id == postId && v in users && v.id == p.author && v.username == username
          ensures r.Some?
        {
          var i :| 0 <= i < |users| && users[i] == v;
          var j :| 0 <= j < |users| && users[j] == u;
          assert i == j;
        }
      }
      r
  }

  // ---- on_delete rules ----

  /** Deleting one post row. */
  function PostsWithout(posts: seq<Post>, postId: nat): (r: seq<Post>)
    ensures forall p :: p in r <==> p in posts && p.id != postId
  {
    Seqs.Filter(posts, (p: Post) => p.id != postId)
  }

  /** Comment.post has on_delete=CASCADE: deleting a post deletes exactly its comments. */
  function CommentsAfterPostDelete(comments: seq<Comment>, postId: nat): (r: seq<Comment>)
    ensures forall c :: c in r <==> c in comments && c.post != postId
  {
    Seqs.Filter(comments, (c: Comment) => c.post != postId)
  }

  function GroupsWithout(groups: seq<Group>, groupId: nat): (r: seq<Group>)
    ensures forall g :: g in r <==> g in groups && g.id != groupId
  {
    Seqs.Filter(groups, (g: Group) => g.id != groupId)
  }

  /**
   * Post.group has on_delete=SET_NULL: every post of the deleted group stays, in place,
   * with its group cleared and every other field as it was.
   */
  function PostsAfterGroupDelete(posts: seq<Post>, groupId: nat): (r: seq<Post>)
    ensures |r| == |posts|
    ensures forall i :: 0 <= i < |r| ==> r[i].group != Some(groupId)
    ensures forall i :: 0 <= i < |r| ==> r[i].(group := None) == posts[i].(group := None)
    ensures forall i :: 0 <= i < |r| && posts[i].group != Some(groupId) ==> r[i] == posts[i]
  {
    seq(|posts|, i requires 0 <= i < |posts| =>
      if posts[i].group == Some(groupId) then posts[i].(group := None) else posts[i])
  }

  function UsersWithout(users: seq<User>, userId: nat): (r: seq<User>)
    ensures forall u :: u in r <==> u in users && u.id != userId
  {
    Seqs.Filter(users, (u: User) => u.id != userId)
  }

  /** Post.author has on_delete=CASCADE: deleting a user deletes the user's posts. */
  function PostsAfterUserDelete(posts: seq<Post>, userId: nat): (r: seq<Post>)
    ensures forall p :: p in r <==> p in posts && p.author != userId
  {
    Seqs.Filter(posts, (p: Post) => p.author != userId)
  }

  /** Ids of the posts written by a user. */
  function PostIdsBy(posts: seq<Post>, userId: nat): (r: set<nat>)
    ensures forall id :: id in r <==> exists p :: p in posts && p.author == userId && p.id == id
  {
    set p | p in posts && p.author == userId :: p.id
  }

  /**
   * Comment.author has on_delete=CASCADE, and so has Comment.post: deleting a user deletes the
   * user's comments and every comment on the user's posts.
   */
  function CommentsAfterUserDelete(comments: seq<Comment>, posts: seq<Post>, userId: nat): (r: seq<Comment>)
    ensures forall c :: c in r <==> c in comments && c.author != userId && c.post !in PostIdsBy(posts, userId)
  {
    var gone := PostIdsBy(posts, userId);
    Seqs.Filter(comments, (c: Comment) => c.author != userId && c.post !in gone)
  }

  /** Follow.user and Follow.author have on_delete=CASCADE: every edge at the user goes, both directions. */
  function EdgesAfterUserDelete(follows: seq<Follow>, userId: nat): (r: seq<Follow>)
    ensures forall e :: e in r <==> e in follows && e.user != userId && e.author != userId
  {
    Seqs.Filter(follows, (e: Follow) => e.user != userId && e.author != userId)
  }
}
