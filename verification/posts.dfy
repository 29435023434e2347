/** The public post and comment endpoints: `GET /posts`, `POST /posts` and
    `POST /posts/:postId/comments`. Fresh ids and timestamps (`Date.now()`,
    `new Date().toISOString()`) are supplied by the caller. */
module PostService {
  import opened Seqs
  import opened Document

  function InCategory(category: string): Post -> bool
  {
    (p: Post) => p.category == category
  }

  /** GET /posts: every post, or, when the `category` query parameter is
      truthy, exactly the posts of that category in their stored order. */
  function ListPosts(s: Store, category: Option<string>): (o: Outcome)
    ensures o.store == s
    ensures o.reply.PostList?
    ensures !Truthy(category) ==> o.reply.posts == s.posts
    ensures Truthy(category) ==>
      (forall p :: p in o.reply.posts <==> p in s.posts && p.category == category.value)
    ensures Truthy(category) ==> |o.reply.posts| == Count(s.posts, InCategory(category.value))
    ensures Subseq(o.reply.posts, s.posts)
  {
    if Truthy(category) then
      Outcome(PostList(Filter(s.posts, InCategory(category.value))), s)
    else
      assert Subseq(s.posts, s.posts) by { SubseqReflexive(s.posts); }
      Outcome(PostList(s.posts), s)
  }

  /** The post that `POST /posts` stores. */
  function NewPost(id: int, title: string, author: string, content: string,
                   category: string, createdAt: string): Post
  {
    Post(id, title, author, content, category, [], 0, false, createdAt)
  }

  /** POST /posts: appends one post with no comments, no likes and not solved;
      nothing is validated and nothing else changes. */
  function CreatePost(s: Store, id: int, title: string, author: string, content: string,
                      category: string, createdAt: string): (o: Outcome)
    ensures o.reply == Success
    ensures |o.store.posts| == |s.posts| + 1
    ensures o.store.posts[..|s.posts|] == s.posts
    ensures var p := o.store.posts[|s.posts|];
      && p.id == id && p.title == title && p.author == author && p.content == content
      && p.category == category && p.createdAt == createdAt
      && p.comments == [] && p.likes == 0 && !p.solved
    ensures o.store.users == s.users
  {
    Outcome(Success, s.(posts := s.posts + [NewPost(id, title, author, content, category, createdAt)]))
  }

  /** POST /posts/:postId/comments: 404 when no post has the id; otherwise
      one comment is appended to the first post with that id, and nothing
      else changes. */
  function AddComment(s: Store, postId: int, commentId: int, author: string, content: string): (o: Outcome)
    ensures o.reply == NotFound <==> forall i :: 0 <= i < |s.posts| ==> s.posts[i].id != postId
    ensures o.reply == NotFound || o.reply == Success
    ensures o.reply == NotFound ==> o.store == s
    ensures o.store.users == s.users
    ensures |o.store.posts| == |s.posts|
    ensures forall i :: IsFirst(s.posts, PostHasId(postId), i) ==>
      && o.store.posts[i].comments == s.posts[i].comments + [Comment(commentId, author, content)]
      && o.store.posts[i].(comments := s.posts[i].comments) == s.posts[i]
      && forall j :: 0 <= j < |s.posts| && j != i ==> o.store.posts[j] == s.posts[j]
  {
    match FindPost(s.posts, postId)
    case None => Outcome(NotFound, s)
    case Some(i) =>
      var post := s.posts[i];
      var post' := post.(comments := post.comments + [Comment(commentId, author, content)]);
      Outcome(Success, s.(posts := s.posts[i := post']))
  }

  /** Listing after a creation: unfiltered, and under the new post's own
      category, the new post is the last one listed after everything listed
      before; under any other truthy category the listing is as before. */
  lemma CreateThenList(s: Store, id: int, title: string, author: string, content: string,
                       category: string, createdAt: string, filter: Option<string>)
    ensures var s' := CreatePost(s, id, title, author, content, category, createdAt).store;
      var p := NewPost(id, title, author, content, category, createdAt);
      && (!Truthy(filter) || filter.value == category ==>
            ListPosts(s', filter).reply.posts == ListPosts(s, filter).reply.posts + [p])
      && (Truthy(filter) && filter.value != category ==>
            ListPosts(s', filter).reply.posts == ListPosts(s, filter).reply.posts)
  {
    var p := NewPost(id, title, author, content, category, createdAt);
    if Truthy(filter) {
      FilterAppend(s.posts, [p], InCategory(filter.value));
    }
  }

  /** A comment added to an existing post shows up in the next unfiltered
      listing, as the last comment of the first post with that id. */
  lemma CommentThenList(s: Store, postId: int, commentId: int, author: string, content: string)
    requires exists i :: 0 <= i < |s.posts| && s.posts[i].id == postId
    ensures var listed := ListPosts(AddComment(s, postId, commentId, author, content).store, None).reply.posts;
      exists i :: IsFirst(listed, PostHasId(postId), i) && listed[i].comments == s.posts[i].comments + [Comment(commentId, author, content)]
  {
    var i := FindPost(s.posts, postId).value;
    var listed := ListPosts(AddComment(s, postId, commentId, author, content).store, None).reply.posts;
    assert IsFirst(listed, PostHasId(postId), i);
  }
}
