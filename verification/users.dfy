/** Administrator login and user management: `POST /kanri/login`,
    `POST /kanri/create-user`, `GET /kanri/users`,
    `POST /kanri/delete-user/:targetId` and `POST /kanri/update-role/:targetId`.
    Every handler but login passes the `Authorized` gate first. */
module UserService {
  import opened Seqs
  import opened Document

  predicate IsAdminCredential(u: User, username: string, password: string)
  {
    u.username == username && u.password == password && u.role == AdminRole
  }

  /** POST /kanri/login: succeeds with the id of the first user whose
      username, password and role all match; otherwise 403. Reads only. */
  function Login(s: Store, username: string, password: string): (o: Outcome)
    ensures o.store == s
    ensures o.reply.LoggedIn? || o.reply == Forbidden
    ensures o.reply.LoggedIn? <==>
      exists i :: 0 <= i < |s.users| && IsAdminCredential(s.users[i], username, password)
    ensures o.reply.LoggedIn? ==>
      exists i :: 0 <= i < |s.users| && IsAdminCredential(s.users[i], username, password)
        && o.reply.userId == s.users[i].id
        && forall j :: 0 <= j < i ==> !IsAdminCredential(s.users[j], username, password)
  {
    match FindIndex(s.users, (u: User) => IsAdminCredential(u, username, password))
    case None => Outcome(Forbidden, s)
    case Some(i) => Outcome(LoggedIn(s.users[i].id), s)
  }

  /** POST /kanri/create-user: an admin appends a user with the given fields
      and a caller-supplied fresh id, and gets that user back. */
  function CreateUser(s: Store, adminId: Option<int>, newId: int,
                      username: string, password: string, role: string): (o: Outcome)
    ensures !Authorized(s.users, adminId) ==> o == Outcome(Forbidden, s)
    ensures Authorized(s.users, adminId) ==>
      && o.reply == UserCreated(User(newId, username, password, role))
      && o.store.users == s.users + [o.reply.newUser]
    ensures o.store.posts == s.posts
  {
    if !Authorized(s.users, adminId) then Outcome(Forbidden, s)
    else
      var u := User(newId, username, password, role);
      Outcome(UserCreated(u), s.(users := s.users + [u]))
  }

  /** GET /kanri/users: an admin sees every user, passwords included. Reads only. */
  function ListUsers(s: Store, userId: Option<int>): (o: Outcome)
    ensures o.store == s
    ensures !Authorized(s.users, userId) <==> o.reply == Forbidden
    ensures Authorized(s.users, userId) ==> o.reply == UserList(s.users)
  {
    if !Authorized(s.users, userId) then Outcome(Forbidden, s)
    else Outcome(UserList(s.users), s)
  }

  function WithoutUser(target: int): User -> bool
  {
    (u: User) => u.id != target
  }

  /** POST /kanri/delete-user/:targetId: an admin removes every user whose id
      is the target; the others keep their order. No match is not an error. */
  function DeleteUser(s: Store, userId: Option<int>, targetId: int): (o: Outcome)
    ensures !Authorized(s.users, userId) ==> o == Outcome(Forbidden, s)
    ensures Authorized(s.users, userId) ==> o.reply == Done
    ensures Authorized(s.users, userId) ==>
      (forall u :: u in o.store.users <==> u in s.users && u.id != targetId)
    ensures Authorized(s.users, userId) ==> |o.store.users| == Count(s.users, WithoutUser(targetId))
    ensures Subseq(o.store.users, s.users)
    ensures o.store.posts == s.posts
  {
    if !Authorized(s.users, userId) then
      assert Subseq(s.users, s.users) by { SubseqReflexive(s.users); }
      Outcome(Forbidden, s)
    else
      Outcome(Done, s.(users := Filter(s.users, WithoutUser(targetId))))
  }

  /** POST /kanri/update-role/:targetId: an admin overwrites the role of the
      first user with the target id and gets that user back with the new
      role; with no such user it still succeeds, with no user and no change. */
  function UpdateRole(s: Store, userId: Option<int>, targetId: int, newRole: string): (o: Outcome)
    ensures !Authorized(s.users, userId) ==> o == Outcome(Forbidden, s)
    ensures Authorized(s.users, userId) ==> o.reply.RoleUpdated?
    ensures o.store.posts == s.posts
    ensures |o.store.users| == |s.users|
    ensures forall j :: 0 <= j < |s.users| ==> o.store.users[j].(role := s.users[j].role) == s.users[j]
    ensures (forall i :: 0 <= i < |s.users| ==> s.users[i].id != targetId) ==> o.store == s
    ensures Authorized(s.users, userId) ==> forall i :: IsFirst(s.users, UserHasId(targetId), i) ==>
      && o.store.users[i].role == newRole
      && o.reply.target == Some(o.store.users[i])
      && forall j :: 0 <= j < |s.users| && j != i ==> o.store.users[j] == s.users[j]
    ensures Authorized(s.users, userId) ==>
      (o.reply.target.None? <==> forall i :: 0 <= i < |s.users| ==> s.users[i].id != targetId)
    ensures Authorized(s.users, userId) && o.reply.target.None? ==> o.store == s
  {
    if !Authorized(s.users, userId) then Outcome(Forbidden, s)
    else
      match FindUser(s.users, targetId)
      case None => Outcome(RoleUpdated(None), s)
      case Some(i) =>
        var u := s.users[i].(role := newRole);
        Outcome(RoleUpdated(Some(u)), s.(users := s.users[i := u]))
  }

  /** The seeded account logs in with its well-known credentials. */
  lemma SeedAdminLogsIn()
    ensures Login(InitDB(None), "admin", "admin123") == Outcome(LoggedIn(1), InitDB(None))
  {
    assert IsAdminCredential(InitDB(None).users[0], "admin", "admin123");
  }

  /** Deleting a user twice leaves the same document as deleting once; the
      second reply differs only when the requester deleted themselves. */
  lemma DeleteUserIdempotent(s: Store, userId: Option<int>, targetId: int)
    ensures var once := DeleteUser(s, userId, targetId);
      var twice := DeleteUser(once.store, userId, targetId);
      && twice.store == once.store
      && (userId != Some(targetId) ==> twice.reply == once.reply)
  {
    if Authorized(s.users, userId) {
      FilterIdempotent(s.users, WithoutUser(targetId));
      if userId != Some(targetId) {
        AuthorizedAfterDelete(s.users, targetId, userId.value);
      }
    }
  }

  /** Removing the users with one id leaves the gate unchanged for every
      other requester: their first match survives and stays first. */
  lemma {:induction false} AuthorizedAfterDelete(users: seq<User>, targetId: int, requester: int)
    requires requester != targetId
    ensures Authorized(Filter(users, WithoutUser(targetId)), Some(requester)) == Authorized(users, Some(requester))
  {
    if |users| != 0 {
      var rest := Filter(users[1..], WithoutUser(targetId));
      AuthorizedAfterDelete(users[1..], targetId, requester);
      assert users == [users[0]] + users[1..];
      FindUserCons(users[0], users[1..], requester);
      if users[0].id != targetId {
        FindUserCons(users[0], rest, requester);
      }
    }
  }

  /** Deleting an id no user has changes nothing. */
  lemma DeleteAbsentUser(s: Store, userId: Option<int>, targetId: int)
    requires forall i :: 0 <= i < |s.users| ==> s.users[i].id != targetId
    ensures DeleteUser(s, userId, targetId).store == s
  {
    FilterKeepsAll(s.users, WithoutUser(targetId));
  }

  /** Setting the same role twice is setting it once. */
  lemma UpdateRoleIdempotent(s: Store, userId: Option<int>, targetId: int, newRole: string)
    ensures var once := UpdateRole(s, userId, targetId, newRole);
      UpdateRole(once.store, userId, targetId, newRole).store == once.store
  {
  }

  /** An admin who creates a user is still admitted afterwards: the new user
      is appended behind the admin's own first match. */
  lemma CreateUserKeepsAdmin(s: Store, adminId: Option<int>, newId: int,
                             username: string, password: string, role: string)
    requires Authorized(s.users, adminId)
    ensures Authorized(CreateUser(s, adminId, newId, username, password, role).store.users, adminId)
  {
    var i := FindUser(s.users, adminId.value).value;
    AuthorizedAppend(s.users, [User(newId, username, password, role)], adminId.value);
  }

  /** An admin who gives their own id a non-admin role is refused from then
      on. */
  lemma UpdateOwnRoleRevokes(s: Store, adminId: int, newRole: string)
    requires Authorized(s.users, Some(adminId))
    requires newRole != AdminRole
    ensures !Authorized(UpdateRole(s, Some(adminId), adminId, newRole).store.users, Some(adminId))
  {
    var i := FindUser(s.users, adminId).value;
    var users' := UpdateRole(s, Some(adminId), adminId, newRole).store.users;
    assert IsFirst(users', UserHasId(adminId), i);
  }
}
