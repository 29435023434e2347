/** The one JSON document the server keeps (`db.json`): posts with their
    embedded comments, and users. Also the reply kinds the handlers send and
    the two lookups every handler builds on. */
module Document {
  import opened Seqs

  datatype Comment = Comment(id: int, author: string, content: string)

  datatype Post = Post(
    id: int,
    title: string,
    author: string,
    content: string,
    category: string,
    comments: seq<Comment>,
    likes: int,
    solved: bool,
    createdAt: string)

  datatype User = User(id: int, username: string, password: string, role: string)

  datatype Store = Store(posts: seq<Post>, users: seq<User>)

  /** What a handler answers; the HTTP status is implied by the kind. */
  datatype Reply =
    | Success                        // 200 { success: true }
    | PostList(posts: seq<Post>)     // 200, a JSON array of posts
    | LoggedIn(userId: int)          // 200 { success: true, userId }
    | UserCreated(newUser: User)     // 200 { success: true, user }
    | UserList(users: seq<User>)     // 200, a JSON array of users
    | RoleUpdated(target: Option<User>)// 200 { success: true, user } (user may be undefined)
    | Done                           // 200 'ok'
    | NotFound                       // 404
    | Forbidden                      // 403

  /** A handler's reply together with the document it leaves behind. */
  datatype Outcome = Outcome(reply: Reply, store: Store)

  const AdminRole: string := "admin"

  /** The account created on first start. */
  const SeedAdmin: User := User(1, "admin", "admin123", AdminRole)

  /** Start-up: a document that was never written (`db.data` absent) becomes
      the seed document; an existing document is kept as it is, even when its
      collections are empty. */
  function InitDB(data: Option<Store>): (s: Store)
    ensures data.None? ==> s.posts == [] && s.users == [SeedAdmin]
    ensures data.Some? ==> s == data.value
  {
    match data
    case None => Store([], [SeedAdmin])
    case Some(d) => d
  }

  /** JavaScript truthiness of an optional query string: present and non-empty. */
  predicate Truthy(q: Option<string>)
  {
    q.Some? && q.value != ""
  }

  function UserHasId(id: int): User -> bool
  {
    (u: User) => u.id == id
  }

  function PostHasId(id: int): Post -> bool
  {
    (p: Post) => p.id == id
  }

  /** `users.find(u => u.id == id)`, as a position. */
  function FindUser(users: seq<User>, id: int): (r: Option<nat>)
    ensures r.None? <==> forall i :: 0 <= i < |users| ==> users[i].id != id
    ensures r.Some? ==> IsFirst(users, UserHasId(id), r.value)
    ensures forall i :: IsFirst(users, UserHasId(id), i) ==> r == Some(i)
  {
    FindIndex(users, UserHasId(id))
  }

  /** Looking up an id in a sequence with one more user in front. */
  lemma FindUserCons(u: User, rest: seq<User>, id: int)
    ensures FindUser([u] + rest, id) ==
      if u.id == id then Some(0)
      else match FindUser(rest, id)
        case None => None
        case Some(i) => Some(i + 1)
  {
    assert ([u] + rest)[1..] == rest;
  }

  /** `posts.find(p => p.id === id)`, as a position. */
  function FindPost(posts: seq<Post>, id: int): (r: Option<nat>)
    ensures r.None? <==> forall i :: 0 <= i < |posts| ==> posts[i].id != id
    ensures r.Some? ==> IsFirst(posts, PostHasId(id), r.value)
    ensures forall i :: IsFirst(posts, PostHasId(id), i) ==> r == Some(i)
  {
    FindIndex(posts, PostHasId(id))
  }

  /** The gate in front of every admin handler except login: the first user
      whose id equals the requester's must exist and have the admin role.
      A missing requester id (`undefined`) equals no user id. */
  function Authorized(users: seq<User>, requester: Option<int>): (ok: bool)
    ensures ok <==> (requester.Some? &&
      exists i :: IsFirst(users, UserHasId(requester.value), i) && users[i].role == AdminRole)
    ensures ok ==> exists u :: u in users && u.id == requester.value && u.role == AdminRole
  {
    requester.Some? &&
    match FindUser(users, requester.value)
    case None => false
    case Some(i) => users[i].role == AdminRole
  }

  /** Appending users never changes who passes the gate for a requester that
      already matches some user, since only the first match is consulted. */
  lemma {:induction false} AuthorizedAppend(users: seq<User>, extra: seq<User>, requester: int)
    requires exists i :: 0 <= i < |users| && users[i].id == requester
    ensures Authorized(users + extra, Some(requester)) == Authorized(users, Some(requester))
  {
    var k :| 0 <= k < |users| && users[k].id == requester;
    var i := FindUser(users, requester).value;
    assert IsFirst(users + extra, UserHasId(requester), i);
  }
}
