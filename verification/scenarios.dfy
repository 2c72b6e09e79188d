/**
 * Clients of the model that replay the situations the repository's tests set up and check
 * that the model gives the outcome the tests expect.
 */
module Scenarios {
  import opened Common
  import opened Models
  import opened Paginate
  import Feeds
  import Follows
  import Store
  import Seqs

  /** A distinct text for the k-th post of a run. */
  function Text(k: nat): string
  {
    "Test post " + [if k < 26 then (65 + k) as char else 'z']
  }

  /** A fresh store holding the users "sergey" and "sergey2" and nothing else. */
  method TwoUsers() returns (s: Store.Store, author: User, reader: User)
    ensures fresh(s) && s.Valid()
    ensures s.users == [author, reader] && author.username == "sergey" && reader.username == "sergey2"
    ensures author.id != reader.id
    ensures s.groups == [] && s.posts == [] && s.comments == [] && s.follows == []
  {
    s := new Store.Store();
    var a := s.RegisterUser("sergey");
    var b := s.RegisterUser("sergey2");
    author, reader := a.value, b.value;
  }

  /** A fresh store holding the user "alice" and the group with slug "news", and nothing else. */
  method AuthorAndGroup() returns (s: Store.Store, author: User, news: Group)
    ensures fresh(s) && s.Valid()
    ensures s.users == [author] && author.username == "alice"
    ensures s.groups == [news] && news.slug == "news"
    ensures s.posts == [] && s.comments == [] && s.follows == []
  {
    s := new Store.Store();
    var a := s.RegisterUser("alice");
    var g := s.CreateGroup("News", "news", "");
    author, news := a.value, g.value;
  }

  /** TwoUsers, and one post by "sergey" that post_view finds under that username. */
  method OnePost() returns (s: Store.Store, author: User, stranger: User, post: Post)
    ensures fresh(s) && s.Valid()
    ensures s.users == [author, stranger] && author.username == "sergey" && stranger.username == "sergey2"
    ensures s.posts == [post] && post.author == author.id
    ensures s.comments == [] && s.follows == []
    ensures FindPost(s.users, s.posts, post.id, "sergey") == Some(post)
  {
    s, author, stranger := TwoUsers();
    var r := s.NewPost(Some(author), Some(Store.PostInput("Post", None, None)));
    post := s.posts[0];
  }

  /** Twelve posts split into a page of ten and a page of two, in the order they are stored. */
  lemma TwelvePages(posts: seq<Post>)
    requires |posts| == 12
    ensures NumPages(12) == 2
    ensures GetPage(posts, None).items == posts[..10]
    ensures GetPage(posts, Some(2)).items == posts[10..]
    ensures GetPage(posts, Some(3)) == GetPage(posts, Some(2))
  {
  }

  /** Twelve posts by one author: page 1 holds ten, page 2 the other two, newest first. */
  method TwelvePostsPaginate()
  {
    var s, u, other := TwoUsers();
    var i := 0;
    while i < 12
      invariant 0 <= i <= 12
      invariant s.Valid() && u in s.users
      invariant |s.posts| == i
      invariant forall k :: 0 <= k < i ==> s.posts[i - 1 - k].text == Text(k)
    {
      assert Store.ValidPostInput(s.groups, Store.PostInput(Text(i), None, None));
      ghost var before := s.posts;
      var r := s.NewPost(Some(u), Some(Store.PostInput(Text(i), None, None)));
      assert s.posts[0].text == Text(i) && s.posts[1..] == before;
      i := i + 1;
    }
    var page1 := Feeds.Index(s.posts, None);
    var page2 := Feeds.Index(s.posts, Some(2));
    var page3 := Feeds.Index(s.posts, Some(3));
    TwelvePages(s.posts);
    assert |page1.items| == 10 && |page2.items| == 2;
    assert page1.items[0] == s.posts[12 - 1 - 11] && page2.items[0] == s.posts[12 - 1 - 1];
    assert page1.items[0].text == Text(11) && page2.items[0].text == Text(1);
    assert page3 == page2;
  }

  /** A post reaches the follow feed of its author's followers. */
  method FollowerSeesPost()
  {
    var s, author, reader := TwoUsers();
    var r := s.NewPost(Some(author), Some(Store.PostInput("Test post", None, None)));
    var post := s.posts[0];
    r := s.ProfileFollow(Some(reader), "sergey");
    assert s.posts == [post] && Follows.IsFollowing(s.follows, reader.id, author.id);
    var selection := Feeds.FollowSelection(s.posts, s.follows, reader.id);
    assert post in selection;
    Seqs.HeadIsMember(selection);
    assert selection[0] == post;
    var feed := Feeds.FollowIndex(s.posts, s.follows, Some(reader), None);
    assert feed.Render? && feed.context.items[0] == post;
  }

  /** A post does not reach a user who does not follow its author. */
  method NonFollowerDoesNotSeePost()
  {
    var s, author, reader := TwoUsers();
    var r := s.ProfileFollow(Some(reader), "sergey");
    r := s.NewPost(Some(reader), Some(Store.PostInput("Other post", None, None)));
    var post := s.posts[0];
    var feed := Feeds.FollowIndex(s.posts, s.follows, Some(author), None);
    assert feed.Render? && post !in feed.context.items;
  }

  /** Following twice keeps one edge; following oneself changes nothing. */
  method FollowTwice()
  {
    var s, author, reader := TwoUsers();
    var r := s.ProfileFollow(Some(reader), "sergey");
    r := s.ProfileFollow(Some(reader), "sergey");
    assert Follows.EdgeCount(s.follows, reader.id, author.id) == 1;
    ghost var before := s.follows;
    r := s.ProfileFollow(Some(author), "sergey");
    assert s.follows == before && r == Redirect(ProfilePage("sergey"));
  }

  /** The profile's flag follows the edge, is false for anonymous visitors, and unfollowing clears it. */
  method ProfileFlagAndUnfollow()
  {
    var s, author, reader := TwoUsers();
    var r := s.ProfileFollow(Some(reader), "sergey");
    var profile := Feeds.Profile(s.users, s.posts, s.follows, Some(reader), "sergey", None);
    assert profile.Render? && profile.context.author == author && profile.context.following;
    var anonymous := Feeds.Profile(s.users, s.posts, s.follows, None, "sergey", None);
    assert anonymous.Render? && !anonymous.context.following;

    r := s.ProfileUnfollow(Some(reader), "sergey");
    profile := Feeds.Profile(s.users, s.posts, s.follows, Some(reader), "sergey", None);
    assert profile.Render? && !profile.context.following;
  }

  /** A post in a group shows in that group's feed. */
  method GroupFeedShowsPost()
  {
    var s, author, news := AuthorAndGroup();
    var r := s.NewPost(Some(author), Some(Store.PostInput("Hello", Some(news.id), None)));
    var post := s.posts[0];
    var feed := Feeds.GroupPosts(s.groups, s.posts, "news", None);
    assert feed.Render? && post in feed.context.page.items;
  }

  /** A group with no posts has an empty first page, even when another group has posts. */
  method EmptyGroup()
  {
    var s, author, news := AuthorAndGroup();
    var other := s.CreateGroup("Other", "other", "");
    assert other.Some?;
    var r := s.NewPost(Some(author), Some(Store.PostInput("Hello", Some(news.id), None)));
    var feed := Feeds.GroupPosts(s.groups, s.posts, "other", None);
    assert feed.Render? && feed.context.group == other.value;
    var selection := Feeds.GroupSelection(s.posts, other.value.id);
    Seqs.HeadIsMember(selection);
    assert selection == [];
    assert feed.context.page.items == [];
  }

  /** An unknown slug is a 404. */
  method UnknownGroup()
  {
    var s, author, news := AuthorAndGroup();
    var r := s.NewPost(Some(author), Some(Store.PostInput("Hello", Some(news.id), None)));
    var unknown := Feeds.GroupPosts(s.groups, s.posts, "missing", None);
    assert unknown == NotFound;
  }

  /** A second group with a slug already in use is refused and nothing changes. */
  method GroupSlugClash()
  {
    var s, author, news := AuthorAndGroup();
    var clash := s.CreateGroup("Again", "news", "");
    assert clash.None? && s.groups == [news];
  }

  /** Deleting a group keeps its posts, ungrouped. */
  method DeleteGroupKeepsPosts()
  {
    var s, author, news := AuthorAndGroup();
    var r := s.NewPost(Some(author), Some(Store.PostInput("Hello", Some(news.id), None)));
    var post := s.posts[0];
    var index := Feeds.Index(s.posts, None);
    assert index.items == [post];
    s.DeleteGroup(news.id);
    assert s.posts == [post.(group := None)];
  }

  /** A user who is not the author is sent back to the post, which stays as it was. */
  method StrangerCannotEdit()
  {
    var s, author, stranger, post := OnePost();
    var r := s.PostEdit(Some(stranger), "sergey", post.id, Some(Store.PostInput("Changed", None, None)));
    assert r == Redirect(PostPage("sergey", post.id)) && s.posts == [post];
  }

  /** The author's edit changes the text in place and adds no post. */
  method AuthorEdits()
  {
    var s, author, stranger, post := OnePost();
    var r := s.PostEdit(Some(author), "sergey", post.id, Some(Store.PostInput("Changed", None, None)));
    assert |s.posts| == 1 && s.posts[0].text == "Changed";
    assert s.posts[0].id == post.id && s.posts[0].pubDate == post.pubDate;
  }

  /** A comment is shown with its post; an anonymous visitor is sent to log in. */
  method CommentShown()
  {
    var s, author, stranger, post := OnePost();
    var r := s.AddComment(Some(author), "sergey", post.id, Some("One Two"));
    var view := Feeds.PostView(s.users, s.posts, s.comments, "sergey", post.id);
    assert view.Render? && s.comments[0] in view.context.comments && s.comments[0].text == "One Two";
    r := s.AddComment(None, "sergey", post.id, Some("Anonymous"));
    assert r == Redirect(Login);
  }

  /** Deleting a post deletes its comments. */
  method DeletePostDeletesComments()
  {
    var s, author, stranger, post := OnePost();
    var r := s.AddComment(Some(author), "sergey", post.id, Some("One Two"));
    assert |s.comments| == 1;
    s.DeletePost(post.id);
    assert s.posts == [] && s.comments == [];
  }
}
