/** The whole server as one state machine over the document: each request is
    handled against the current document and yields a reply and the next
    document, one request at a time. */
module Board {
  import opened Seqs
  import opened Document
  import PostService
  import UserService
  import AdminPosts

  /** One request, already parsed: route parameters and ids are integers,
      and the requester id of an admin request is absent when the client
      sent none. Fresh ids and timestamps come with the request. */
  datatype Request =
    | ListPosts(filter: Option<string>)
    | CreatePost(newPostId: int, title: string, author: string, content: string,
                 category: string, createdAt: string)
    | AddComment(postId: int, commentId: int, author: string, content: string)
    | Login(username: string, password: string)
    | CreateUser(adminId: Option<int>, newUserId: int, username: string, password: string, role: string)
    | ListUsers(userId: Option<int>)
    | DeleteUser(userId: Option<int>, targetId: int)
    | UpdateRole(userId: Option<int>, targetId: int, newRole: string)
    | AdminData(userId: Option<int>)
    | DeletePost(userId: Option<int>, postId: int)
    | DeleteComment(userId: Option<int>, postId: int, commentId: int)
  {
    /** Requests that go through the admin gate. */
    predicate Gated()
    {
      CreateUser? || ListUsers? || DeleteUser? || UpdateRole? || AdminData? || DeletePost? || DeleteComment?
    }

    /** The id the gate checks. */
    function Requester(): Option<int>
      requires Gated()
    {
      if CreateUser? then adminId else userId
    }

    /** Requests whose handler never writes the document. */
    predicate ReadOnly()
    {
      ListPosts? || Login? || ListUsers? || AdminData?
    }
  }

  /** Dispatches a request to its handler. */
  function Handle(s: Store, req: Request): (o: Outcome)
    ensures req.ReadOnly() ==> o.store == s
    ensures req.Gated() && !Authorized(s.users, req.Requester()) ==> o == Outcome(Forbidden, s)
    ensures o.reply == Forbidden ==>
      req.Login? || (req.Gated() && !Authorized(s.users, req.Requester()))
    ensures o.reply == NotFound ==> req.AddComment? && o.store == s
    ensures !(req.CreateUser? || req.DeleteUser? || req.UpdateRole?) ==> o.store.users == s.users
    ensures !(req.CreatePost? || req.AddComment? || req.DeletePost? || req.DeleteComment?) ==>
      o.store.posts == s.posts
  {
    match req
    case ListPosts(filter) => PostService.ListPosts(s, filter)
    case CreatePost(id, title, author, content, category, createdAt) =>
      PostService.CreatePost(s, id, title, author, content, category, createdAt)
    case AddComment(postId, commentId, author, content) =>
      PostService.AddComment(s, postId, commentId, author, content)
    case Login(username, password) => UserService.Login(s, username, password)
    case CreateUser(adminId, id, username, password, role) =>
      UserService.CreateUser(s, adminId, id, username, password, role)
    case ListUsers(userId) => UserService.ListUsers(s, userId)
    case DeleteUser(userId, targetId) => UserService.DeleteUser(s, userId, targetId)
    case UpdateRole(userId, targetId, newRole) => UserService.UpdateRole(s, userId, targetId, newRole)
    case AdminData(userId) => AdminPosts.AdminData(s, userId)
    case DeletePost(userId, postId) => AdminPosts.DeletePost(s, userId, postId)
    case DeleteComment(userId, postId, commentId) => AdminPosts.DeleteComment(s, userId, postId, commentId)
  }

  /** Handles the requests in order, threading the document through. */
  function Run(s: Store, reqs: seq<Request>): (r: Store)
    ensures (forall k :: 0 <= k < |reqs| ==> reqs[k].ReadOnly()) ==> r == s
    decreases |reqs|
  {
    if |reqs| == 0 then s else Run(Handle(s, reqs[0]).store, reqs[1..])
  }

  /** The gate in the terms of the stored users: a gated request whose
      requester id is missing, matches no user, or whose first matching user
      is not an admin is refused and writes nothing. */
  lemma {:induction false} GateRefuses(s: Store, req: Request)
    requires req.Gated()
    requires || req.Requester().None?
             || (forall i :: 0 <= i < |s.users| ==> s.users[i].id != req.Requester().value)
             || (exists i :: IsFirst(s.users, UserHasId(req.Requester().value), i) && s.users[i].role != AdminRole)
    ensures Handle(s, req) == Outcome(Forbidden, s)
  {
    if req.Requester().Some? {
      if exists i :: IsFirst(s.users, UserHasId(req.Requester().value), i) && s.users[i].role != AdminRole {
        var i :| IsFirst(s.users, UserHasId(req.Requester().value), i) && s.users[i].role != AdminRole;
        assert FindUser(s.users, req.Requester().value) == Some(i);
      }
    }
  }

  /** Conversely, an admin requester is never refused. */
  lemma AdminIsAdmitted(s: Store, req: Request, i: int)
    requires req.Gated() && req.Requester().Some?
    requires IsFirst(s.users, UserHasId(req.Requester().value), i) && s.users[i].role == AdminRole
    ensures Handle(s, req).reply != Forbidden
  {
    assert Authorized(s.users, req.Requester());
  }

  function ScenarioPost(postId: int, createdAt: string): Post
  {
    PostService.NewPost(postId, "T", "A", "C", "cat1", createdAt)
  }

  lemma ScenarioCreate(postId: int, createdAt: string)
    ensures Handle(InitDB(None), CreatePost(postId, "T", "A", "C", "cat1", createdAt)).store
      == Store([ScenarioPost(postId, createdAt)], [SeedAdmin])
  {
  }

  lemma ScenarioComment(postId: int, commentId: int, createdAt: string)
    ensures Handle(Store([ScenarioPost(postId, createdAt)], [SeedAdmin]), AddComment(postId, commentId, "X", "hi")).store
      == Store([ScenarioPost(postId, createdAt).(comments := [Comment(commentId, "X", "hi")])], [SeedAdmin])
  {
    var p := ScenarioPost(postId, createdAt);
    assert IsFirst([p], PostHasId(postId), 0);
    assert FindPost([p], postId) == Some(0);
    assert p.comments + [Comment(commentId, "X", "hi")] == [Comment(commentId, "X", "hi")];
  }

  lemma ScenarioDelete(p: Post)
    ensures Handle(Store([p], [SeedAdmin]), DeletePost(Some(1), p.id)).store == Store([], [SeedAdmin])
  {
    assert IsFirst([SeedAdmin], UserHasId(1), 0);
  }

  /** The end-to-end walk through on a fresh server: create a post, find it
      by category, comment on it, log in as the seeded admin, delete the post
      with the id the login returned, and see it gone. */
  lemma EndToEnd(postId: int, commentId: int, createdAt: string)
    ensures
      var s0 := InitDB(None);
      var s1 := Handle(s0, CreatePost(postId, "T", "A", "C", "cat1", createdAt)).store;
      var listed := Handle(s1, ListPosts(Some("cat1"))).reply.posts;
      var s2 := Handle(s1, AddComment(postId, commentId, "X", "hi")).store;
      var login := Handle(s2, Login("admin", "admin123")).reply;
      var s3 := Handle(s2, DeletePost(Some(login.userId), postId)).store;
      && |listed| == 1 && listed[0].title == "T"
      && |s2.posts| == 1 && |s2.posts[0].comments| == 1
      && login == LoggedIn(1)
      && forall p :: p in Handle(s3, ListPosts(None)).reply.posts ==> p.id != postId
  {
    var p := ScenarioPost(postId, createdAt);
    ScenarioCreate(postId, createdAt);
    var s1 := Store([p], [SeedAdmin]);
    assert Handle(s1, ListPosts(Some("cat1"))).reply.posts == [p];
    ScenarioComment(postId, commentId, createdAt);
    var s2 := Store([p.(comments := [Comment(commentId, "X", "hi")])], [SeedAdmin]);
    UserService.SeedAdminLogsIn();
    assert Handle(s2, Login("admin", "admin123")).reply == LoggedIn(1);
    ScenarioDelete(s2.posts[0]);
  }
}
