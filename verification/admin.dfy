/** Admin-only post management: `GET /kanri/data`,
    `POST /kanri/delete-post/:postId` and
    `POST /kanri/delete-comment/:postId/:commentId`. */
module AdminPosts {
  import opened Seqs
  import opened Document

  /** GET /kanri/data: an admin sees every post with its comments. Reads only. */
  function AdminData(s: Store, userId: Option<int>): (o: Outcome)
    ensures o.store == s
    ensures !Authorized(s.users, userId) <==> o.reply == Forbidden
    ensures Authorized(s.users, userId) ==> o.reply == PostList(s.posts)
  {
    if !Authorized(s.users, userId) then Outcome(Forbidden, s)
    else Outcome(PostList(s.posts), s)
  }

  function WithoutPost(postId: int): Post -> bool
  {
    (p: Post) => p.id != postId
  }

  function WithoutComment(commentId: int): Comment -> bool
  {
    (c: Comment) => c.id != commentId
  }

  /** POST /kanri/delete-post/:postId: an admin removes every post with the
      id, comments and all; the others keep their order. No match is not an
      error. */
  function DeletePost(s: Store, userId: Option<int>, postId: int): (o: Outcome)
    ensures !Authorized(s.users, userId) ==> o == Outcome(Forbidden, s)
    ensures Authorized(s.users, userId) ==> o.reply == Done
    ensures Authorized(s.users, userId) ==>
      (forall p :: p in o.store.posts <==> p in s.posts && p.id != postId)
    ensures Authorized(s.users, userId) ==> |o.store.posts| == Count(s.posts, WithoutPost(postId))
    ensures Subseq(o.store.posts, s.posts)
    ensures o.store.users == s.users
  {
    if !Authorized(s.users, userId) then
      assert Subseq(s.posts, s.posts) by { SubseqReflexive(s.posts); }
      Outcome(Forbidden, s)
    else
      Outcome(Done, s.(posts := Filter(s.posts, WithoutPost(postId))))
  }

  /** POST /kanri/delete-comment/:postId/:commentId: an admin removes every
      comment with the comment id from the first post with the post id; other
      posts, including later posts with the same id, are untouched. No match
      is not an error. */
  function DeleteComment(s: Store, userId: Option<int>, postId: int, commentId: int): (o: Outcome)
    ensures !Authorized(s.users, userId) ==> o == Outcome(Forbidden, s)
    ensures Authorized(s.users, userId) ==> o.reply == Done
    ensures o.store.users == s.users
    ensures |o.store.posts| == |s.posts|
    ensures (forall i :: 0 <= i < |s.posts| ==> s.posts[i].id != postId) ==> o.store == s
    ensures Authorized(s.users, userId) ==> forall i :: IsFirst(s.posts, PostHasId(postId), i) ==>
      var before := s.posts[i].comments;
      var after := o.store.posts[i].comments;
      && o.store.posts[i].(comments := before) == s.posts[i]
      && (forall c :: c in after <==> c in before && c.id != commentId)
      && |after| == Count(before, WithoutComment(commentId))
      && Subseq(after, before)
      && forall j :: 0 <= j < |s.posts| && j != i ==> o.store.posts[j] == s.posts[j]
  {
    if !Authorized(s.users, userId) then Outcome(Forbidden, s)
    else
      match FindPost(s.posts, postId)
      case None => Outcome(Done, s)
      case Some(i) =>
        var post := s.posts[i];
        var post' := post.(comments := Filter(post.comments, WithoutComment(commentId)));
        Outcome(Done, s.(posts := s.posts[i := post']))
  }

  /** Deleting a post twice is deleting it once, reply included. */
  lemma DeletePostIdempotent(s: Store, userId: Option<int>, postId: int)
    ensures var once := DeletePost(s, userId, postId);
      DeletePost(once.store, userId, postId) == once
  {
    FilterIdempotent(s.posts, WithoutPost(postId));
  }

  /** Deleting a post id no post has changes nothing. */
  lemma DeleteAbsentPost(s: Store, userId: Option<int>, postId: int)
    requires forall i :: 0 <= i < |s.posts| ==> s.posts[i].id != postId
    ensures DeletePost(s, userId, postId).store == s
  {
    FilterKeepsAll(s.posts, WithoutPost(postId));
  }

  /** Deleting a comment twice is deleting it once, reply included. */
  lemma DeleteCommentIdempotent(s: Store, userId: Option<int>, postId: int, commentId: int)
    ensures var once := DeleteComment(s, userId, postId, commentId);
      DeleteComment(once.store, userId, postId, commentId) == once
  {
    if Authorized(s.users, userId) {
      match FindPost(s.posts, postId)
      case None =>
      case Some(i) =>
        var posts' := DeleteComment(s, userId, postId, commentId).store.posts;
        assert IsFirst(posts', PostHasId(postId), i);
        FilterIdempotent(s.posts[i].comments, WithoutComment(commentId));
    }
  }

  /** Deleting a comment id the post does not hold changes nothing. */
  lemma DeleteAbsentComment(s: Store, userId: Option<int>, postId: int, commentId: int)
    requires forall i, k :: IsFirst(s.posts, PostHasId(postId), i) && 0 <= k < |s.posts[i].comments| ==>
      s.posts[i].comments[k].id != commentId
    ensures DeleteComment(s, userId, postId, commentId).store == s
  {
    if Authorized(s.users, userId) {
      match FindPost(s.posts, postId)
      case None =>
      case Some(i) =>
        FilterKeepsAll(s.posts[i].comments, WithoutComment(commentId));
    }
  }
}
