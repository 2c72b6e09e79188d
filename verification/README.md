# Yatube posts app — a Dafny model

This project models the data rules of the `posts` app of a small Django blogging site
(hw05_final, "Yatube"). Users publish text posts, optionally in a group and with an image.
Other users comment on posts and follow authors, and every list of posts is served newest
first, ten to a page. The model is an in-memory store of tables: users, groups, posts,
comments and follow edges. It has one operation per view, and the ORM's `on_delete` rules
become explicit delete operations. The HTTP, template and ORM plumbing is not modelled.

Modules:

- `Common`: `Option`, the redirect targets (`Route`) and the outcomes of a view
  (`Response`: a rendered context, a redirect, a 404, or the server error a raising view produces).
- `Seqs`: order-preserving selection (`Filter`), which stands for a filtered queryset, and
  lemmas about selection and strict orderings.
- `Paginate`: `PageSize` (PAG_CONST = 10), the page count, the page that `get_page` serves,
  page slicing, and the proof that the pages partition a feed.
- `Models`: the `Group`, `Post`, `Comment`, `Follow` and `User` records, `__str__`, the
  `Meta.ordering` relations, the `get_object_or_404` lookups, and the CASCADE / SET_NULL
  rules as functions on tables.
- `Follows`: the follow table as `get_or_create`, `filter(...).delete()` and `exists()`
  change and query it.
- `Feeds`: the read views `index`, `group_posts`, `profile`, `follow_index` and `post_view`.
- `Store`: the class `Store.Store` that holds the tables and runs the write views `new_post`,
  `add_comment`, `post_edit`, `profile_follow` and `profile_unfollow`, plus the three deletes.
  `Consistent` is its invariant: unique keys, usernames and slugs; newest-first orderings; no
  dangling reference.
- `Scenarios`: client methods that replay the repository's tests against the contracts.
  Examples: twelve posts split 10/2, a post reaching followers only, following twice, an edit
  by a stranger, a comment deleted with its post.

Time is a counter (`clock`) that `auto_now_add` reads and that only moves forward. Primary
keys come from a second counter (`nextId`). The requester is `Option<User>`, where `None` is
an anonymous visitor. A view behind `login_required` answers `Redirect(Login)` to an anonymous
visitor.

## Model

| member | source | states |
|---|---|---|
| `Paginate.NumPages` | posts/views.py:14 | a selection of n items has ceil(n/10) pages, and at least one page when it is empty |
| `Paginate.ResolvePage` | posts/views.py:15-16 | a missing or non-numeric page parameter serves page 1; a number in 1..NumPages serves that page; any other number serves the last page |
| `Paginate.PageAt` | posts/views.py:14-16 | page k is the items at offsets [(k-1)·10, k·10): ten items before the last page, the remainder on the last page, and never empty when the selection is not |
| `Paginate.GetPage` | posts/views.py:14-16 | the page in a view's context has the resolved number, the page count, and at most 10 items taken from that slice |
| `Paginate.PagesUpToIsPrefix` | posts/views.py:14-16 | pages 1..k together are exactly the first min(10·k, n) items of the selection |
| `Paginate.PagesPartition` | posts/views.py:14-16 | pages 1..NumPages concatenated are the selection itself, with the same multiset: no item is dropped or repeated |
| `Paginate.ItemPage` | posts/views.py:14-16 | item i sits at position i mod 10 of page i div 10 + 1, and at no other (page, position) |
| `Models.GroupStr` | posts/models.py:22-23 | str(group) is the group's title |
| `Models.PostStr` | posts/models.py:67-68 | str(post) is the prefix of the text with length min(15, len(text)) |
| `Models.PostNewer` | posts/models.py:65 | ordering = ["-pub_date"]: a post comes before another when it was published later |
| `Models.CommentNewer` | posts/models.py:94-95 | ordering = ["-created"]: a comment comes before another when it was created later |
| `Models.FindGroupBySlug` | posts/views.py:22 | finds a group carrying the slug; None exactly when no group has that slug |
| `Models.FindUserByName` | posts/views.py:58 | finds a user with the username; None exactly when no user has it |
| `Models.FindPostOf` | posts/views.py:46-47 | finds the post with this key by this author; None exactly when there is none |
| `Models.FindPost` | posts/views.py:91-92 | finds the post with this key whose author has this username; None exactly when no such post exists |
| `Models.PostsWithout` | posts/models.py:26-68 | deleting a post keeps exactly the posts with another key |
| `Models.CommentsAfterPostDelete` | posts/models.py:72-76 | CASCADE from Post: exactly the comments on the deleted post go, every other comment stays |
| `Models.GroupsWithout` | posts/models.py:7-23 | deleting a group keeps exactly the groups with another key |
| `Models.PostsAfterGroupDelete` | posts/models.py:45-53 | SET_NULL: every post stays in place; no post keeps the deleted group; every other field is unchanged |
| `Models.UsersWithout` | posts/models.py:37-43 | deleting a user keeps exactly the users with another key |
| `Models.PostsAfterUserDelete` | posts/models.py:37-43 | CASCADE from User: exactly the user's posts go |
| `Models.CommentsAfterUserDelete` | posts/models.py:72-82 | CASCADE from User and Post: the user's comments go, and so do the comments on the user's posts; every other comment stays |
| `Models.EdgesAfterUserDelete` | posts/models.py:98-107 | CASCADE on both foreign keys of Follow: every edge with the user at either end goes; the others stay |
| `Follows.IsFollowing` | posts/views.py:63-64 | `filter(user=..., author=...).exists()`: true exactly when at least one row records the pair |
| `Follows.AddEdge` | posts/views.py:138 | get_or_create: fails (MultipleObjectsReturned) exactly when the pair already has two or more rows; otherwise afterwards the pair has exactly one row, a row is added only if none was there, and every other edge's count is unchanged |
| `Follows.RemoveEdges` | posts/views.py:146 | filter-delete: afterwards no (user, author) edge exists; every other edge keeps its count |
| `Follows.FollowIdempotent` | posts/views.py:138 | once a follow succeeds, following again succeeds and leaves the table as following once |
| `Follows.UnfollowIdempotent` | posts/views.py:146 | unfollowing twice leaves the table as unfollowing once |
| `Follows.FollowThenUnfollow` | posts/views.py:133-147 | a successful follow followed by unfollow gives the same table as unfollow alone, and the edge is gone |
| `Follows.AddEdgeKeepsShape` | posts/views.py:137-138 | on a table with at most one row per pair, following never fails, keeps at most one row per pair, and adds no self-edge when the pair is not a self-pair |
| `Follows.RemoveEdgesKeepsShape` | posts/views.py:146 | unfollowing keeps both of those properties |
| `Feeds.GroupSelection` | posts/views.py:23 | the group feed holds exactly the posts of that group, newest first |
| `Feeds.AuthorSelection` | posts/views.py:59 | the profile feed holds exactly the author's posts, newest first |
| `Feeds.FollowSelection` | posts/views.py:122 | the follow feed holds exactly the posts whose author the user follows, newest first |
| `Feeds.CommentsOf` | posts/views.py:79 | a post's comments are exactly the comments whose post is that post, newest first (ordering -created) |
| `Feeds.PageOfSelection` | posts/views.py:14-16 | a page holds only items of its selection, and is newest first when the selection is |
| `Feeds.Index` | posts/views.py:12-18 | index serves exactly `GetPage` of all posts: the page number is the resolved `?page=` value, the items are the posts at offsets (k-1)·10+i, at most 10, newest first |
| `Feeds.GroupPosts` | posts/views.py:21-30 | 404 exactly when no group has the slug; otherwise the group with that slug and a page of its posts, each in that group |
| `Feeds.Profile` | posts/views.py:57-72 | 404 exactly when no user has the username; otherwise that author and a page of the author's posts; `following` is false for an anonymous requester and otherwise is membership of (requester, author) in the edge table |
| `Feeds.FollowIndex` | posts/views.py:119-130 | anonymous visitors are sent to the login page; otherwise a page of the follow feed, every post by a followed author |
| `Feeds.PostView` | posts/views.py:75-86 | 404 exactly when no post has the key and the author; otherwise the post and exactly its comments, newest first |
| `Feeds.GroupSelectionIsCanonical` | posts/models.py:65 | any newest-first listing of exactly the group's posts is the group feed: the order fixes the sequence |
| `Feeds.FollowSelectionIsCanonical` | posts/models.py:65 | the same for the follow feed |
| `Feeds.FollowFeedPagesPartition` | posts/views.py:122-125 | the pages of the follow feed, concatenated, are the follow feed |
| `Feeds.OwnPostsNotInFollowFeed` | posts/views.py:122 | when nobody follows themself, the requester's own posts are not in their follow feed |
| `Store.ValidPostInput` | posts/forms.py:6-9 | PostForm.is_valid(): the text is non-empty and a chosen group is one that exists |
| `Store.ValidCommentText` | posts/forms.py:12-18 | CommentForm.is_valid(): the text is non-empty |
| `Store.Consistent` | posts/models.py:7-107 | the store invariant: unique keys, usernames and slugs; newest-first posts and comments; every foreign key points at an existing row; timestamps and keys below the counters |
| `Store.Edited` | posts/views.py:96-99 | a saved edit replaces text and group, and a new image replaces the old one; the key, author and publication date stay |
| `Store.EditPost` | posts/views.py:96-99 | saving an edit adds, removes and moves no post, and changes only the post with that key |
| `Store.Store.RegisterUser` | posts/tests/test_views.py:38-44 | the auth collaborator adds a user with a fresh key; a username already taken is refused and nothing changes |
| `Store.Store.CreateGroup` | posts/models.py:13-15 | a group with a slug already in use is refused (unique slug); otherwise the group is added with a fresh key |
| `Store.Store.NewPost` | posts/views.py:33-41 | anonymous: login redirect, no change; GET or invalid form: form shown, no change; valid form: exactly one post added in front, authored by the requester, with the form's text, group and image, then a redirect to the index |
| `Store.Store.SaveComment` | posts/views.py:50-53 | saving a comment form prepends one comment with a fresh key, the clock's time, the given post and author; the other tables stay and the invariant holds |
| `Store.Store.AddComment` | posts/views.py:44-54 | anonymous: login redirect; unknown post: 404; otherwise redirect to the post; a valid comment is added in front, authored by the requester and attached to that post; an invalid one changes nothing |
| `Store.Store.PostEdit` | posts/views.py:89-107 | anonymous: login redirect; unknown post: 404; requester not the author: redirect, no change; GET or invalid form: form shown, no change; valid form: the post is edited in place, then a redirect to it |
| `Store.Store.ProfileFollow` | posts/views.py:133-139 | anonymous: login redirect; unknown username: 404; self-follow: redirect, no change; pair already stored twice or more: server error, no change; otherwise the table becomes AddEdge's and the view redirects to the profile; on a table without duplicate rows it never fails, and it never creates a duplicate or self-edge where there was none |
| `Store.Store.ProfileUnfollow` | posts/views.py:142-147 | anonymous: login redirect; unknown username: 404; otherwise RemoveEdges, and every other edge stays |
| `Store.Store.DeletePost` | posts/models.py:72-76 | the post goes with exactly its comments; the store invariant holds afterwards |
| `Store.Store.DeleteGroup` | posts/models.py:45-53 | the group goes and its posts stay with the group cleared; the store invariant holds afterwards |
| `Store.Store.DeleteUser` | posts/models.py:37-43 | the user goes with their posts, their comments, the comments on their posts and their follow edges in both directions; the store invariant holds afterwards |
| `Store.UserAdded` | posts/tests/test_views.py:38-44 | appending a user with a fresh key and an unused username keeps the store invariant |
| `Store.GroupAdded` | posts/models.py:13-15 | appending a group with a fresh key and an unused slug keeps the store invariant, unique slugs included |
| `Store.PostAdded` | posts/models.py:32-35 | a post stamped with the current clock goes in front and keeps the newest-first order and unique keys |
| `Store.CommentAdded` | posts/models.py:89-95 | a comment stamped with the current clock goes in front and keeps the newest-first comment order |
| `Store.EdgeAdded` | posts/views.py:137-138 | a successful get_or_create between two distinct existing users keeps the store invariant and the no-duplicate and no-self-edge shapes |
| `Store.EdgesRemoved` | posts/views.py:146 | deleting a pair's rows keeps the store invariant and both shapes |
| `Store.PostEdited` | posts/views.py:96-99 | an edit keeps the store invariant: keys, dates and order are untouched |
| `Store.PostDeleted` | posts/models.py:72-76 | after the post cascade, no comment points at a missing post |
| `Store.GroupDeleted` | posts/models.py:45-53 | after SET_NULL, no post points at a missing group |
| `Store.UserDeleted` | posts/models.py:37-43 | after the user cascade, no post, comment or edge points at a missing user or post |

## Left out

- Templates, rendering, status codes and the `page_not_found` / `server_error` handlers. A
  view's outcome is a `Response`: rendered context, redirect, 404 or server error.
- Authentication. `login_required` becomes `Redirect(Login)` for a `None` requester. The
  requester, when present, is assumed to be a row of the user table. User creation is the
  auth collaborator's job, and `RegisterUser` stands in for it.
- Paginator internals. The raw `?page=` string is `Option<int>`, where `None` means missing or
  not an integer. `ResolvePage` encodes Django's `get_page`, which is library code outside the
  repository: a page number below 1 is answered with the last page, not the first, just like
  a number past the end.
- yatube/settings.py is not part of this model. PAG_CONST = 10 is the value the paginator
  tests imply.
- The cached home page. No cache code is in posts/views.py or posts/models.py, and
  posts/urls.py is not part of this model.
- Form validation beyond "text is non-empty" and "a chosen group exists". Django's
  whitespace stripping, field lengths and image-content checks are not modelled.
- Images are opaque optional references. Clearing an image during an edit is not modelled.
- Wall-clock timestamps. The clock counter is strictly increasing, so ties in `pub_date` and
  `created` never occur.
- The follow table has no unique constraint, so the store invariant allows a pair to be stored
  twice, for example by rows created outside these views. On such a store `ProfileFollow`
  answers `ServerError`, as get_or_create's MultipleObjectsReturned would. `ProfileFollow`
  itself never creates such a row.
- `follow_index` is a SQL join on the follow table. With two identical follow rows, a post
  would be listed twice. The model's feed is a membership filter. `ProfileFollow` and
  `ProfileUnfollow` never create a duplicate row, so the two agree on every store that these
  views build.
- Group and user deletion have no view in this app; they are the admin's or auth
  collaborator's operations. They are modelled only for their on_delete effects.
- `Store.Store.DeletePost`, `Store.Store.DeleteGroup`, `Store.Store.DeleteUser`: deletion
  order and atomicity inside the database are not modelled; each delete is one step.
- Concurrency between requests; each operation is one atomic step on the store.
