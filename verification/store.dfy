/**
 * The tables of the posts app as one in-memory store, and the views and deletions that change
 * them: new_post, add_comment, post_edit, profile_follow, profile_unfollow, and the on_delete
 * cascades of Post, Group and User.
 */
module Store {
  import opened Common
  import opened Models
  import Follows
  import Seqs

  /** The fields a PostForm submits: text, group and image. */
  datatype PostInput = PostInput(text: string, group: Option<nat>, image: Option<string>)

  /** PostForm.is_valid(): the text is required and a chosen group must exist. */
  predicate ValidPostInput(groups: seq<Group>, input: PostInput)
  {
    |input.text| > 0 && (input.group.Some? ==> input.group.value in GroupIds(groups))
  }

  /** CommentForm.is_valid(): the text is required. */
  predicate ValidCommentText(text: string)
  {
    |text| > 0
  }

  /**
   * What saving the edit form does to a post: text and group are replaced, a newly uploaded image
   * replaces the old one; the key, the author and the publication date stay.
   */
  function Edited(p: Post, input: PostInput): (r: Post)
    ensures r.id == p.id && r.author == p.author && r.pubDate == p.pubDate
    ensures r.text == input.text && r.group == input.group
    ensures input.image.None? ==> r.image == p.image
    ensures input.image.Some? ==> r.image == input.image
  {
    p.(text := input.text, group := input.group, image := if input.image.Some? then input.image else p.image)
  }

  /** The post table after the post with key `postId` is saved with `input`; no row is added or moved. */
  function EditPost(posts: seq<Post>, postId: nat, input: PostInput): (r: seq<Post>)
    ensures |r| == |posts|
    ensures forall i :: 0 <= i < |r| && posts[i].id != postId ==> r[i] == posts[i]
    ensures forall i :: 0 <= i < |r| && posts[i].id == postId ==> r[i] == Edited(posts[i], input)
  {
    seq(|posts|, i requires 0 <= i < |posts| => if posts[i].id == postId then Edited(posts[i], input) else posts[i])
  }

  /**
   * The store invariant: unique keys, usernames and slugs; canonical newest-first orderings;
   * no row pointing at a missing row; every key and timestamp handed out below the counters.
   */
  ghost predicate Consistent(users: seq<User>, groups: seq<Group>, posts: seq<Post>, comments: seq<Comment>,
                             follows: seq<Follow>, clock: nat, nextId: nat)
  {
    UsersUnique(users) && GroupsUnique(groups)
    && PostsNewestFirst(posts) && PostIdsUnique(posts) && PostsLinked(posts, users, groups)
    && CommentsNewestFirst(comments) && CommentIdsUnique(comments) && CommentsLinked(comments, users, posts)
    && EdgesLinked(follows, users)
    && (forall u :: u in users ==> u.id < nextId)
    && (forall g :: g in groups ==> g.id < nextId)
    && (forall p :: p in posts ==> p.id < nextId && p.pubDate < clock)
    && (forall c :: c in comments ==> c.id < nextId && c.created < clock)
  }

  class Store {
    var users: seq<User>
    var groups: seq<Group>
    var posts: seq<Post>
    var comments: seq<Comment>
    var follows: seq<Follow>
    /** The clock that auto_now_add reads; it only moves forward. */
    var clock: nat
    /** The next primary key to hand out. */
    var nextId: nat

    ghost predicate Valid()
      reads this
    {
      Consistent(users, groups, posts, comments, follows, clock, nextId)
    }

    constructor ()
      ensures Valid()
      ensures users == [] && groups == [] && posts == [] && comments == [] && follows == []
    {
      users, groups, posts, comments, follows := [], [], [], [], [];
      clock, nextId := 0, 0;
    }

    /** The authentication collaborator creates a user; a taken username is refused. */
    method RegisterUser(username: string) returns (r: Option<User>)
      requires Valid()
      modifies this
      ensures Valid()
      ensures r.None? <==> exists u :: u in old(users) && u.username == username
      ensures r.None? ==> unchanged(this)
      ensures r.Some? ==>
                r.value.username == username && users == old(users) + [r.value]
                && r.value.id !in UserIds(old(users))
      ensures r.Some? ==>
                groups == old(groups) && posts == old(posts) && comments == old(comments)
                && follows == old(follows) && clock == old(clock)
    {
      if FindUserByName(users, username).Some? {
        return None;
      }
      var u := User(nextId, username);
      UserAdded(users, groups, posts, comments, follows, clock, nextId, u);
      users := users + [u];
      nextId := nextId + 1;
      r := Some(u);
    }

    /** An administrator creates a group; SlugField(unique=True) refuses a slug already in use. */
    method CreateGroup(title: string, slug: string, description: string) returns (r: Option<Group>)
      requires Valid()
      modifies this
      ensures Valid()
      ensures r.None? <==> exists g :: g in old(groups) && g.slug == slug
      ensures r.None? ==> unchanged(this)
      ensures r.Some? ==>
                r.value == Group(r.value.id, title, slug, description) && groups == old(groups) + [r.value]
                && r.value.id !in GroupIds(old(groups))
      ensures r.Some? ==>
                users == old(users) && posts == old(posts) && comments == old(comments)
                && follows == old(follows) && clock == old(clock)
    {
      if FindGroupBySlug(groups, slug).Some? {
        return None;
      }
      var g := Group(nextId, title, slug, description);
      GroupAdded(users, groups, posts, comments, follows, clock, nextId, g);
      groups := groups + [g];
      nextId := nextId + 1;
      r := Some(g);
    }

    /**
     * new_post: anonymous requesters are sent to the login page; a GET or an invalid form shows
     * the form and writes nothing; a valid form adds exactly one post, written by the requester,
     * newest of all, and redirects to the index.
     */
    method NewPost(requester: Option<User>, form: Option<PostInput>) returns (r: Response<()>)
      requires Valid()
      requires requester.Some? ==> requester.value in users
      modifies this
      ensures Valid()
      ensures requester.None? ==> r == Redirect(Login) && unchanged(this)
      ensures requester.Some? && (form.None? || !ValidPostInput(old(groups), form.value)) ==>
                r == Render(()) && unchanged(this)
      ensures requester.Some? && form.Some? && ValidPostInput(old(groups), form.value) ==>
                r == Redirect(IndexPage)
                && posts == [Post(old(nextId), form.value.text, old(clock), requester.value.id,
                                  form.value.group, form.value.image)] + old(posts)
                && users == old(users) && groups == old(groups) && comments == old(comments)
                && follows == old(follows)
    {
      if requester.None? {
        return Redirect(Login);
      }
      if form.None? || !ValidPostInput(groups, form.value) {
        return Render(());
      }
      var input := form.value;
      var post := Post(nextId, input.text, clock, requester.value.id, input.group, input.image);
      PostAdded(users, groups, posts, comments, follows, clock, nextId, post);
      posts := [post] + posts;
      nextId, clock := nextId + 1, clock + 1;
      r := Redirect(IndexPage);
    }

    /**
     * add_comment: login required; 404 unless post `postId` is written by `username`; a valid
     * comment becomes the newest comment, written by the requester and attached to that post.
     * Valid or not, the answer is a redirect to the post.
     */
    method AddComment(requester: Option<User>, username: string, postId: nat, form: Option<string>)
      returns (r: Response<()>)
      requires Valid()
      requires requester.Some? ==> requester.value in users
      modifies this
      ensures Valid()
      ensures requester.None? ==> r == Redirect(Login) && unchanged(this)
      ensures requester.Some? && FindPost(old(users), old(posts), postId, username).None? ==>
                r == NotFound && unchanged(this)
      ensures requester.Some? && FindPost(old(users), old(posts), postId, username).Some? ==>
                r == Redirect(PostPage(username, postId))
      ensures requester.Some? && (form.None? || !ValidCommentText(form.value)) ==> unchanged(this)
      ensures requester.Some? && FindPost(old(users), old(posts), postId, username).Some?
              && form.Some? && ValidCommentText(form.value) ==>
                comments == [Comment(old(nextId), postId, requester.value.id, form.value, old(clock))] + old(comments)
                && users == old(users) && groups == old(groups) && posts == old(posts) && follows == old(follows)
    {
      if requester.None? {
        return Redirect(Login);
      }
      var found := FindPost(users, posts, postId, username);
      if found.None? {
        return NotFound;
      }
      if form.Some? && ValidCommentText(form.value) {
        assert found.value in posts && found.value.id == postId;
        SaveComment(postId, requester.value.id, form.value);
      }
      r := Redirect(PostPage(username, postId));
    }

    /** form.save() of a comment form: the comment is stamped with a fresh key and the clock. */
    method SaveComment(postId: nat, authorId: nat, text: string)
      requires Valid() && authorId in UserIds(users) && postId in PostIds(posts)
      modifies this
      ensures Valid()
      ensures comments == [Comment(old(nextId), postId, authorId, text, old(clock))] + old(comments)
      ensures users == old(users) && groups == old(groups) && posts == old(posts) && follows == old(follows)
    {
      var comment := Comment(nextId, postId, authorId, text, clock);
      CommentAdded(users, groups, posts, comments, follows, clock, nextId, comment);
      comments := [comment] + comments;
      nextId, clock := nextId + 1, clock + 1;
    }

    /**
     * post_edit: login required; 404 unless post `postId` is written by `username`; a requester
     * whose username is not `username` is redirected to the post and nothing changes; a GET or an
     * invalid form shows the form; a valid form saves the post in place and redirects to it.
     */
    method PostEdit(requester: Option<User>, username: string, postId: nat, form: Option<PostInput>)
      returns (r: Response<()>)
      requires Valid()
      requires requester.Some? ==> requester.value in users
      modifies this
      ensures Valid()
      ensures requester.None? ==> r == Redirect(Login) && unchanged(this)
      ensures requester.Some? && FindPost(old(users), old(posts), postId, username).None? ==>
                r == NotFound && unchanged(this)
      ensures requester.Some? && FindPost(old(users), old(posts), postId, username).Some?
              && requester.value.username != username ==>
                r == Redirect(PostPage(username, postId)) && unchanged(this)
      ensures requester.Some? && FindPost(old(users), old(posts), postId, username).Some?
              && requester.value.username == username
              && (form.None? || !ValidPostInput(old(groups), form.value)) ==>
                r == Render(()) && unchanged(this)
      ensures requester.Some? && FindPost(old(users), old(posts), postId, username).Some?
              && requester.value.username == username
              && form.Some? && ValidPostInput(old(groups), form.value) ==>
                r == Redirect(PostPage(username, postId))
                && posts == EditPost(old(posts), postId, form.value)
                && users == old(users) && groups == old(groups) && comments == old(comments)
                && follows == old(follows) && clock == old(clock) && nextId == old(nextId)
    {
      if requester.None? {
        return Redirect(Login);
      }
      var found := FindPost(users, posts, postId, username);
      if found.None? {
        return NotFound;
      }
      if requester.value.username != username {
        return Redirect(PostPage(username, postId));
      }
      if form.None? || !ValidPostInput(groups, form.value) {
        return Render(());
      }
      PostEdited(users, groups, posts, comments, follows, clock, nextId, postId, form.value);
      posts := EditPost(posts, postId, form.value);
      r := Redirect(PostPage(username, postId));
    }

    /** Writes the tables at once, when their new contents keep the store consistent; the counters stay. */
    method SetTables(u: seq<User>, g: seq<Group>, p: seq<Post>, c: seq<Comment>, f: seq<Follow>)
      requires Consistent(u, g, p, c, f, clock, nextId)
      modifies this
      ensures Valid()
      ensures users == u && groups == g && posts == p && comments == c && follows == f
      ensures clock == old(clock) && nextId == old(nextId)
    {
      users, groups, posts, comments, follows := u, g, p, c, f;
    }

    /**
     * profile_follow: login required; 404 for an unknown username; when the author is not the
     * requester the edge is got or created, otherwise nothing changes; then back to the profile.
     * When the pair already has several rows, get_or_create raises and the view fails with a
     * server error, changing nothing.
     */
    method ProfileFollow(requester: Option<User>, username: string) returns (r: Response<()>)
      requires Valid()
      requires requester.Some? ==> requester.value in users
      modifies this
      ensures Valid()
      ensures requester.None? ==> r == Redirect(Login) && unchanged(this)
      ensures requester.Some? && FindUserByName(old(users), username).None? ==> r == NotFound && unchanged(this)
      ensures requester.Some? && requester.value.username == username && FindUserByName(old(users), username).Some? ==>
                r == Redirect(ProfilePage(username)) && unchanged(this)
      ensures requester.Some? && FindUserByName(old(users), username).Some? && requester.value.username != username ==>
                var next := Follows.AddEdge(old(follows), requester.value.id, FindUserByName(old(users), username).value.id);
                (next.None? ==> r == ServerError && unchanged(this))
                && (next.Some? ==>
                      r == Redirect(ProfilePage(username)) && follows == next.value
                      && users == old(users) && groups == old(groups) && posts == old(posts)
                      && comments == old(comments) && clock == old(clock) && nextId == old(nextId))
      ensures Follows.NoDuplicateEdges(old(follows)) ==> Follows.NoDuplicateEdges(follows) && r != ServerError
      ensures Follows.NoSelfEdges(old(follows)) ==> Follows.NoSelfEdges(follows)
    {
      if requester.None? {
        return Redirect(Login);
      }
      var author := FindUserByName(users, username);
      if author.None? {
        return NotFound;
      }
      if requester.value.username != username {
        var next := Follows.AddEdge(follows, requester.value.id, author.value.id);
        assert Follows.NoDuplicateEdges(follows) ==> next.Some? by {
          if Follows.NoDuplicateEdges(follows) {
            Follows.AddEdgeKeepsShape(follows, requester.value.id, author.value.id);
          }
        }
        if next.None? {
          return ServerError;
        }
        EdgeAdded(users, groups, posts, comments, follows, clock, nextId, requester.value, author.value);
        SetTables(users, groups, posts, comments, next.value);
      }
      r := Redirect(ProfilePage(username));
    }

    /**
     * profile_unfollow: login required; 404 for an unknown username; every edge from the
     * requester to the author is deleted, every other edge stays; then back to the profile.
     */
    method ProfileUnfollow(requester: Option<User>, username: string) returns (r: Response<()>)
      requires Valid()
      requires requester.Some? ==> requester.value in users
      modifies this
      ensures Valid()
      ensures requester.None? ==> r == Redirect(Login) && unchanged(this)
      ensures requester.Some? && FindUserByName(old(users), username).None? ==> r == NotFound && unchanged(this)
      ensures requester.Some? && FindUserByName(old(users), username).Some? ==>
                r == Redirect(ProfilePage(username))
                && follows == Follows.RemoveEdges(old(follows), requester.value.id, FindUserByName(old(users), username).value.id)
                && users == old(users) && groups == old(groups) && posts == old(posts)
                && comments == old(comments) && clock == old(clock) && nextId == old(nextId)
      ensures Follows.NoDuplicateEdges(old(follows)) ==> Follows.NoDuplicateEdges(follows)
      ensures Follows.NoSelfEdges(old(follows)) ==> Follows.NoSelfEdges(follows)
    {
      if requester.None? {
        return Redirect(Login);
      }
      var author := FindUserByName(users, username);
      if author.None? {
        return NotFound;
      }
      EdgesRemoved(users, groups, posts, comments, follows, clock, nextId, requester.value.id, author.value.id);
      SetTables(users, groups, posts, comments, Follows.RemoveEdges(follows, requester.value.id, author.value.id));
      r := Redirect(ProfilePage(username));
    }

    /** post.delete(): the post goes, and with it (CASCADE) exactly the comments on it. */
    method DeletePost(postId: nat)
      requires Valid()
      modifies this
      ensures Valid()
      ensures posts == PostsWithout(old(posts), postId)
      ensures comments == CommentsAfterPostDelete(old(comments), postId)
      ensures users == old(users) && groups == old(groups) && follows == old(follows)
      ensures clock == old(clock) && nextId == old(nextId)
    {
      PostDeleted(users, groups, posts, comments, follows, clock, nextId, postId);
      SetTables(users, groups, PostsWithout(posts, postId), CommentsAfterPostDelete(comments, postId), follows);
    }

    /** group.delete(): the group goes; its posts stay, in place, with the group cleared (SET_NULL). */
    method DeleteGroup(groupId: nat)
      requires Valid()
      modifies this
      ensures Valid()
      ensures groups == GroupsWithout(old(groups), groupId)
      ensures posts == PostsAfterGroupDelete(old(posts), groupId)
      ensures users == old(users) && comments == old(comments) && follows == old(follows)
      ensures clock == old(clock) && nextId == old(nextId)
    {
      GroupDeleted(users, groups, posts, comments, follows, clock, nextId, groupId);
      SetTables(users, GroupsWithout(groups, groupId), PostsAfterGroupDelete(posts, groupId), comments, follows);
    }

    /**
     * Deleting a user: CASCADE takes the user's posts, the user's comments, the comments on the
     * user's posts, and every follow edge the user is at either end of.
     */
    method DeleteUser(userId: nat)
      requires Valid()
      modifies this
      ensures Valid()
      ensures users == UsersWithout(old(users), userId)
      ensures posts == PostsAfterUserDelete(old(posts), userId)
      ensures comments == CommentsAfterUserDelete(old(comments), old(posts), userId)
      ensures follows == EdgesAfterUserDelete(old(follows), userId)
      ensures groups == old(groups) && clock == old(clock) && nextId == old(nextId)
    {
      UserDeleted(users, groups, posts, comments, follows, clock, nextId, userId);
      SetTables(UsersWithout(users, userId), groups, PostsAfterUserDelete(posts, userId),
                CommentsAfterUserDelete(comments, posts, userId), EdgesAfterUserDelete(follows, userId));
    }
  }

  // ---- Each change keeps the store invariant ----

  lemma UserAdded(users: seq<User>, groups: seq<Group>, posts: seq<Post>, comments: seq<Comment>,
                  follows: seq<Follow>, clock: nat, nextId: nat, u: User)
    requires Consistent(users, groups, posts, comments, follows, clock, nextId)
    requires u.id == nextId && forall v :: v in users ==> v.username != u.username
    ensures Consistent(users + [u], groups, posts, comments, follows, clock, nextId + 1)
  {
    var users' := users + [u];
    assert forall v :: v in users' ==> v in users || v == u;
    assert UsersUnique(users') by {
      forall i, j | 0 <= i < j < |users'| ensures DistinctUsers(users'[i], users'[j]) {
        assert users'[i] in users;
        if j < |users| { assert users'[i] == users[i] && users'[j] == users[j]; }
      }
    }
    assert UserIds(users) <= UserIds(users');
  }

  lemma GroupAdded(users: seq<User>, groups: seq<Group>, posts: seq<Post>, comments: seq<Comment>,
                   follows: seq<Follow>, clock: nat, nextId: nat, g: Group)
    requires Consistent(users, groups, posts, comments, follows, clock, nextId)
    requires g.id == nextId && forall h :: h in groups ==> h.slug != g.slug
    ensures Consistent(users, groups + [g], posts, comments, follows, clock, nextId + 1)
  {
    var groups' := groups + [g];
    assert forall h :: h in groups' ==> h in groups || h == g;
    assert GroupsUnique(groups') by {
      forall i, j | 0 <= i < j < |groups'| ensures DistinctGroups(groups'[i], groups'[j]) {
        assert groups'[i] in groups;
        if j < |groups| { assert groups'[i] == groups[i] && groups'[j] == groups[j]; }
      }
    }
    assert GroupIds(groups) <= GroupIds(groups');
  }

  lemma PostAdded(users: seq<User>, groups: seq<Group>, posts: seq<Post>, comments: seq<Comment>,
                  follows: seq<Follow>, clock: nat, nextId: nat, p: Post)
    requires Consistent(users, groups, posts, comments, follows, clock, nextId)
    requires p.id == nextId && p.pubDate == clock && p.author in UserIds(users)
    requires p.group.Some? ==> p.group.value in GroupIds(groups)
    ensures Consistent(users, groups, [p] + posts, comments, follows, clock + 1, nextId + 1)
  {
    assert forall i :: 0 <= i < |posts| ==> posts[i] in posts;
    Seqs.PrependKeepsPairwise(p, posts, PostNewer);
    Seqs.PrependKeepsPairwise(p, posts, DistinctPosts);
    assert PostIds(posts) <= PostIds([p] + posts);
  }

  lemma CommentAdded(users: seq<User>, groups: seq<Group>, posts: seq<Post>, comments: seq<Comment>,
                     follows: seq<Follow>, clock: nat, nextId: nat, c: Comment)
    requires Consistent(users, groups, posts, comments, follows, clock, nextId)
    requires c.id == nextId && c.created == clock && c.author in UserIds(users) && c.post in PostIds(posts)
    ensures Consistent(users, groups, posts, [c] + comments, follows, clock + 1, nextId + 1)
  {
    assert forall i :: 0 <= i < |comments| ==> comments[i] in comments;
    Seqs.PrependKeepsPairwise(c, comments, CommentNewer);
    Seqs.PrependKeepsPairwise(c, comments, DistinctComments);
  }

  lemma PostEdited(users: seq<User>, groups: seq<Group>, posts: seq<Post>, comments: seq<Comment>,
                   follows: seq<Follow>, clock: nat, nextId: nat, postId: nat, input: PostInput)
    requires Consistent(users, groups, posts, comments, follows, clock, nextId)
    requires ValidPostInput(groups, input)
    ensures Consistent(users, groups, EditPost(posts, postId, input), comments, follows, clock, nextId)
  {
    var posts' := EditPost(posts, postId, input);
    assert forall i :: 0 <= i < |posts'| ==>
      posts'[i].id == posts[i].id && posts'[i].pubDate == posts[i].pubDate && posts'[i].author == posts[i].author;
    forall p | p in posts' ensures p.id < nextId && p.pubDate < clock {
      var i :| 0 <= i < |posts'| && posts'[i] == p;
      assert posts[i] in posts;
    }
    forall c | c in comments ensures c.post in PostIds(posts') {
      var p :| p in posts && p.id == c.post;
      var i :| 0 <= i < |posts| && posts[i] == p;
      assert posts'[i] in posts';
    }
  }

  lemma EdgeAdded(users: seq<User>, groups: seq<Group>, posts: seq<Post>, comments: seq<Comment>,
                  follows: seq<Follow>, clock: nat, nextId: nat, follower: User, author: User)
    requires Consistent(users, groups, posts, comments, follows, clock, nextId)
    requires follower in users && author in users && follower.username != author.username
    requires Follows.AddEdge(follows, follower.id, author.id).Some?
    ensures Consistent(users, groups, posts, comments, Follows.AddEdge(follows, follower.id, author.id).value, clock, nextId)
    ensures Follows.NoDuplicateEdges(follows) ==> Follows.NoDuplicateEdges(Follows.AddEdge(follows, follower.id, author.id).value)
    ensures Follows.NoSelfEdges(follows) ==> Follows.NoSelfEdges(Follows.AddEdge(follows, follower.id, author.id).value)
  {
    assert follower.id != author.id by {
      var i :| 0 <= i < |users| && users[i] == follower;
      var j :| 0 <= j < |users| && users[j] == author;
      assert i != j;
    }
    assert follower.id in UserIds(users) && author.id in UserIds(users);
    if Follows.NoDuplicateEdges(follows) {
      Follows.AddEdgeKeepsShape(follows, follower.id, author.id);
    }
  }

  lemma EdgesRemoved(users: seq<User>, groups: seq<Group>, posts: seq<Post>, comments: seq<Comment>,
                     follows: seq<Follow>, clock: nat, nextId: nat, follower: nat, author: nat)
    requires Consistent(users, groups, posts, comments, follows, clock, nextId)
    ensures Consistent(users, groups, posts, comments, Follows.RemoveEdges(follows, follower, author), clock, nextId)
    ensures Follows.NoDuplicateEdges(follows) ==> Follows.NoDuplicateEdges(Follows.RemoveEdges(follows, follower, author))
    ensures Follows.NoSelfEdges(follows) ==> Follows.NoSelfEdges(Follows.RemoveEdges(follows, follower, author))
  {
    var follows' := Follows.RemoveEdges(follows, follower, author);
    Follows.RemoveEdgesKeepsShape(follows, follower, author);
    forall e | e in follows' ensures e in follows {
      assert multiset(follows')[e] > 0;
      if e != Follow(follower, author) { assert multiset(follows)[e] > 0; }
    }
  }

  lemma PostDeleted(users: seq<User>, groups: seq<Group>, posts: seq<Post>, comments: seq<Comment>,
                    follows: seq<Follow>, clock: nat, nextId: nat, postId: nat)
    requires Consistent(users, groups, posts, comments, follows, clock, nextId)
    ensures Consistent(users, groups, PostsWithout(posts, postId), CommentsAfterPostDelete(comments, postId),
                       follows, clock, nextId)
  {
    var posts', comments' := PostsWithout(posts, postId), CommentsAfterPostDelete(comments, postId);
    Seqs.FilterKeepsPairwise(posts, (p: Post) => p.id != postId, PostNewer);
    Seqs.FilterKeepsPairwise(posts, (p: Post) => p.id != postId, DistinctPosts);
    Seqs.FilterKeepsPairwise(comments, (c: Comment) => c.post != postId, CommentNewer);
    Seqs.FilterKeepsPairwise(comments, (c: Comment) => c.post != postId, DistinctComments);
    forall c | c in comments' ensures c.post in PostIds(posts') {
      var p :| p in posts && p.id == c.post;
      assert p in posts';
    }
  }

  lemma GroupDeleted(users: seq<User>, groups: seq<Group>, posts: seq<Post>, comments: seq<Comment>,
                     follows: seq<Follow>, clock: nat, nextId: nat, groupId: nat)
    requires Consistent(users, groups, posts, comments, follows, clock, nextId)
    ensures Consistent(users, GroupsWithout(groups, groupId), PostsAfterGroupDelete(posts, groupId), comments,
                       follows, clock, nextId)
  {
    var groups', posts' := GroupsWithout(groups, groupId), PostsAfterGroupDelete(posts, groupId);
    Seqs.FilterKeepsPairwise(groups, (g: Group) => g.id != groupId, DistinctGroups);
    assert forall i :: 0 <= i < |posts'| ==>
      posts'[i].id == posts[i].id && posts'[i].pubDate == posts[i].pubDate && posts'[i].author == posts[i].author;
    forall p | p in posts'
      ensures p.author in UserIds(users) && (p.group.Some? ==> p.group.value in GroupIds(groups'))
      ensures p.id < nextId && p.pubDate < clock
    {
      var i :| 0 <= i < |posts'| && posts'[i] == p;
      assert posts[i] in posts;
      if p.group.Some? {
        var g :| g in groups && g.id == p.group.value;
        assert g in groups';
      }
    }
    forall c | c in comments ensures c.post in PostIds(posts') {
      var p :| p in posts && p.id == c.post;
      var i :| 0 <= i < |posts| && posts[i] == p;
      assert posts'[i] in posts';
    }
  }

  lemma UserDeleted(users: seq<User>, groups: seq<Group>, posts: seq<Post>, comments: seq<Comment>,
                    follows: seq<Follow>, clock: nat, nextId: nat, userId: nat)
    requires Consistent(users, groups, posts, comments, follows, clock, nextId)
    ensures Consistent(UsersWithout(users, userId), groups, PostsAfterUserDelete(posts, userId),
                       CommentsAfterUserDelete(comments, posts, userId), EdgesAfterUserDelete(follows, userId),
                       clock, nextId)
  {
    var users', posts' := UsersWithout(users, userId), PostsAfterUserDelete(posts, userId);
    var gone := PostIdsBy(posts, userId);
    Seqs.FilterKeepsPairwise(users, (u: User) => u.id != userId, DistinctUsers);
    Seqs.FilterKeepsPairwise(posts, (p: Post) => p.author != userId, PostNewer);
    Seqs.FilterKeepsPairwise(posts, (p: Post) => p.author != userId, DistinctPosts);
    Seqs.FilterKeepsPairwise(comments, (c: Comment) => c.author != userId && c.post !in gone, CommentNewer);
    Seqs.FilterKeepsPairwise(comments, (c: Comment) => c.author != userId && c.post !in gone, DistinctComments);
    assert CommentsAfterUserDelete(comments, posts, userId)
        == Seqs.Filter(comments, (c: Comment) => c.author != userId && c.post !in gone);
    forall x | x in UserIds(users) && x != userId ensures x in UserIds(users') {
      var u :| u in users && u.id == x;
      assert u in users';
    }
    forall c | c in CommentsAfterUserDelete(comments, posts, userId) ensures c.post in PostIds(posts') {
      var p :| p in posts && p.id == c.post;
      assert p.author != userId;
      assert p in posts';
    }
  }
}
