/** UserDAO: creating a user and assigning roles to it, over the tables
    users and user_roles held in memory. The database's sequence for
    user_id is the counter `nextUserId`; the timestamps the database
    generates are the reading of `clock`. Whether the database accepts a
    statement is not modelled: each statement takes the database's verdict
    as an argument, and a rejected statement raises SqlException and
    changes nothing. */
module UserDao {
  import opened Sql

  /** A role; only its id is used here. */
  datatype Role = Role(roleId: int)

  /** The User object a request carries. Its setters are assignments to
      these fields. */
  class User {
    var userId: int
    var username: string
    var email: string
    var passwordHash: string
    var firstName: string
    var lastName: string
    var active: bool
    var createdAt: Option<nat>
    var updatedAt: Option<nat>
    var roles: Option<seq<Role>>

    constructor (username: string, email: string, passwordHash: string, firstName: string, lastName: string,
                 active: bool, roles: Option<seq<Role>>)
      ensures this.username == username && this.email == email && this.passwordHash == passwordHash
      ensures this.firstName == firstName && this.lastName == lastName && this.active == active
      ensures this.roles == roles && userId == 0 && createdAt == None && updatedAt == None
    {
      this.username := username;
      this.email := email;
      this.passwordHash := passwordHash;
      this.firstName := firstName;
      this.lastName := lastName;
      this.active := active;
      this.roles := roles;
      userId := 0;
      createdAt := None;
      updatedAt := None;
    }
  }

  /** One row of users; `active` is the CHAR(1) flag 'Y'/'N'. */
  datatype UserRow = UserRow(
    userId: nat,
    username: string,
    email: string,
    passwordHash: string,
    firstName: string,
    lastName: string,
    active: char,
    createdAt: nat,
    updatedAt: nat)

  /** One row of user_roles. */
  datatype UserRoleRow = UserRoleRow(userId: int, roleId: int)

  /** A null role list is iterated as no roles. */
  function RoleList(roles: Option<seq<Role>>): (r: seq<Role>)
    ensures roles.None? ==> r == []
    ensures roles.Some? ==> r == roles.value
  {
    if roles.Some? then roles.value else []
  }

  /** The user_roles rows that assigning `roles` to `userId`, one after the
      other, inserts. */
  function RoleRows(userId: int, roles: seq<Role>): (r: seq<UserRoleRow>)
    ensures |r| == |roles|
    ensures forall i :: 0 <= i < |roles| ==> r[i].userId == userId && r[i].roleId == roles[i].roleId
  {
    if roles == [] then []
    else [UserRoleRow(userId, roles[0].roleId)] + RoleRows(userId, roles[1..])
  }

  /** Assigning roles in two runs inserts the rows of the first run, then
      those of the second. */
  lemma {:induction false} RoleRowsAppend(userId: int, a: seq<Role>, b: seq<Role>)
    ensures RoleRows(userId, a + b) == RoleRows(userId, a) + RoleRows(userId, b)
  {
    if a != [] {
      assert (a + b)[1..] == a[1..] + b;
      RoleRowsAppend(userId, a[1..], b);
    }
  }

  /** The number of role assignments that go through before the first one
      the database refuses, among `n` assignments whose 0-based positions
      in `refused` are refused: the first refused position from `k` on, or
      `n` when there is none. */
  function FirstRefused(refused: set<nat>, k: nat, n: nat): (r: nat)
    requires k <= n
    ensures k <= r <= n
    ensures forall j :: k <= j < r ==> j !in refused
    ensures r < n ==> r in refused
    decreases n - k
  {
    if k == n || k in refused then k else FirstRefused(refused, k + 1, n)
  }

  function UserIds(users: seq<UserRow>): set<nat>
  {
    set u | u in users :: u.userId
  }

  class UserDao {
    var users: seq<UserRow>
    var userRoles: seq<UserRoleRow>
    var nextUserId: nat
    var clock: nat

    /** user_id is a key, and every id handed out so far is below the next
        one the sequence will give. */
    ghost predicate Valid()
      reads this`users, this`nextUserId
    {
      0 < nextUserId &&
      (forall i, j :: 0 <= i < j < |users| ==> users[i].userId != users[j].userId) &&
      forall u :: u in users ==> u.userId < nextUserId
    }

    constructor (start: nat)
      ensures Valid()
      ensures users == [] && userRoles == [] && nextUserId == 1 && clock == start
    {
      users := [];
      userRoles := [];
      nextUserId := 1;
      clock := start;
    }

    /** Time passes. */
    method Tick(elapsed: nat)
      modifies this`clock
      ensures clock == old(clock) + elapsed
    {
      clock := clock + elapsed;
    }

    /** assignRoleToUser: inserts one (userId, roleId) row and answers
        whether the insert affected any row. */
    method AssignRoleToUser(userId: int, roleId: int, rejected: bool) returns (r: Result<bool>)
      modifies this`userRoles
      ensures rejected ==> r == Err(SqlException) && userRoles == old(userRoles)
      ensures !rejected ==> userRoles == old(userRoles) + [UserRoleRow(userId, roleId)]
      ensures !rejected ==> r.Ok? && (r.value <==> |userRoles| > |old(userRoles)|)
    {
      if rejected {
        return Err(SqlException);
      }
      var before := |userRoles|;
      userRoles := userRoles + [UserRoleRow(userId, roleId)];
      var rowsAffected := |userRoles| - before;
      r := Ok(rowsAffected > 0);
    }

    /** The first statement of createUser, INSERT INTO users ... RETURNING
        user_id, created_at, updated_at, with the three setters that copy
        the generated values into `user`. */
    method InsertUser(user: User) returns (id: nat)
      requires Valid()
      modifies this`users, this`nextUserId, user`userId, user`createdAt, user`updatedAt
      ensures Valid()
      ensures id == old(nextUserId) && id !in UserIds(old(users)) && nextUserId == id + 1
      ensures users == old(users) + [NewUserRow(user, id, clock)]
      ensures user.userId == id && user.createdAt == Some(clock) && user.updatedAt == Some(clock)
    {
      id := nextUserId;
      users := users + [NewUserRow(user, id, clock)];
      nextUserId := nextUserId + 1;
      user.userId := id;
      user.createdAt := Some(clock);
      user.updatedAt := Some(clock);
    }

    /** createUser: inserts the users row, copies the generated id and
        timestamps into `user`, then assigns the user's roles one by one.
        The database refuses the users insert when `insertRejected`, and the
        role assignments whose 0-based positions are in `roleRejected`. A
        refused role assignment propagates its exception; nothing is rolled
        back, so the users row, the earlier user_roles rows and the fields
        already copied into `user` stay. */
    method CreateUser(user: User, insertRejected: bool, roleRejected: set<nat>) returns (r: Result<User>)
      requires Valid()
      modifies this`users, this`userRoles, this`nextUserId, user`userId, user`createdAt, user`updatedAt
      ensures Valid()
      ensures insertRejected ==>
                r == Err(SqlException) &&
                users == old(users) && userRoles == old(userRoles) && nextUserId == old(nextUserId) &&
                user.userId == old(user.userId) && user.createdAt == old(user.createdAt) &&
                user.updatedAt == old(user.updatedAt)
      ensures !insertRejected ==>
                var id := old(nextUserId);
                var roles := RoleList(user.roles);
                var granted := FirstRefused(roleRejected, 0, |roles|);
                id !in UserIds(old(users)) && nextUserId == id + 1 &&
                users == old(users) + [NewUserRow(user, id, clock)] &&
                user.userId == id && user.createdAt == Some(clock) && user.updatedAt == Some(clock) &&
                userRoles == old(userRoles) + RoleRows(id, roles[..granted]) &&
                r == (if granted == |roles| then Ok(user) else Err(SqlException))
      ensures RoleList(user.roles) == [] ==> userRoles == old(userRoles)
    {
      if insertRejected {
        return Err(SqlException);
      }
      var id := InsertUser(user);
      if user.roles.Some? && |user.roles.value| > 0 {
        var allAssigned := AssignRoles(id, user.roles.value, roleRejected);
        if !allAssigned {
          return Err(SqlException);
        }
      }
      r := Ok(user);
    }

    /** The role loop of createUser: assignRoleToUser for each role in list
        order, stopping at the first assignment the database refuses. It
        answers whether every role was assigned. */
    method AssignRoles(userId: int, roles: seq<Role>, roleRejected: set<nat>) returns (allAssigned: bool)
      modifies this`userRoles
      ensures userRoles == old(userRoles) + RoleRows(userId, roles[..FirstRefused(roleRejected, 0, |roles|)])
      ensures allAssigned <==> FirstRefused(roleRejected, 0, |roles|) == |roles|
    {
      ghost var granted := FirstRefused(roleRejected, 0, |roles|);
      for k := 0 to |roles|
        invariant k <= granted
        invariant userRoles == old(userRoles) + RoleRows(userId, roles[..k])
      {
        var assignment := AssignRoleToUser(userId, roles[k].roleId, k in roleRejected);
        if assignment.Err? {
          assert k == granted;
          return false;
        }
        RoleRowsAppend(userId, roles[..k], [roles[k]]);
        assert roles[..k + 1] == roles[..k] + [roles[k]];
      }
      assert roles[..|roles|] == roles;
      allAssigned := true;
    }
  }

  /** The users row that createUser inserts for `user`: its five text
      fields as given, active as 'Y'/'N', and the generated id and
      timestamps. */
  function NewUserRow(user: User, id: nat, now: nat): (row: UserRow)
    reads user
    ensures row.username == user.username && row.email == user.email && row.passwordHash == user.passwordHash
    ensures row.firstName == user.firstName && row.lastName == user.lastName
    ensures row.active == 'Y' <==> user.active
    ensures row.userId == id && row.createdAt == now && row.updatedAt == now
  {
    UserRow(id, user.username, user.email, user.passwordHash, user.firstName, user.lastName, YesNo(user.active), now, now)
  }

  /** Creating a user with two roles assigns both, in list order; when the
      second assignment is refused the user row and the first role stay. */
  method CreateUserScenario()
  {
    var u := new User("ana", "ana@example.org", "h", "Ana", "Diaz", true, Some([Role(7), Role(9)]));
    var dao := new UserDao(5);
    var r := dao.CreateUser(u, false, {});
    assert FirstRefused({}, 0, 2) == 2;
    assert [Role(7), Role(9)][..2] == [Role(7), Role(9)];
    assert r == Ok(u) && u.userId == 1 && u.createdAt == Some(5);
    assert dao.users == [UserRow(1, "ana", "ana@example.org", "h", "Ana", "Diaz", 'Y', 5, 5)];
    assert dao.userRoles == [UserRoleRow(1, 7), UserRoleRow(1, 9)];

    var v := new User("bo", "bo@example.org", "k", "Bo", "Li", false, Some([Role(7), Role(9)]));
    r := dao.CreateUser(v, false, {1});
    assert FirstRefused({1}, 0, 2) == 1;
    assert [Role(7), Role(9)][..1] == [Role(7)];
    assert r.Err? && v.userId == 2;
    assert dao.users[1].active == 'N';
    assert dao.userRoles == [UserRoleRow(1, 7), UserRoleRow(1, 9), UserRoleRow(2, 7)];
  }
}
