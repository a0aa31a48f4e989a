/**
  User accounts and their permissions (app/routers/auth.py:176-219, 321-505; app/database/db.py:262-427):
  what each request does to the two tables, and the handlers in their own form.
*/
module Accounts {
  import opened Text

  datatype Role = Admin | Operator | Viewer

  type UserId = nat

  // password stands for the hash and its salt, which are always written together
  datatype User = User(username: string, email: string, role: Role, isActive: bool, password: string)

  // custom is history: the users whose permissions were set by a request since their role last changed
  datatype State = State(users: map<UserId, User>, permissions: map<UserId, set<string>>, nextId: UserId, custom: set<UserId>)

  const ALL_PERMISSIONS: seq<string> := [
    "server:reboot", "server:settings", "player:kick", "player:ban", "player:broadcast", "logs:view",
    "feedback:submit", "users:manage", "system:update"]

  // DEFAULT_ROLE_PERMISSIONS
  function DefaultList(role: Role): seq<string> {
    match role
    case Admin => ALL_PERMISSIONS
    case Operator => ["server:reboot", "server:settings", "player:kick", "player:ban", "player:broadcast", "logs:view",
                      "feedback:submit", "system:update"]
    case Viewer => ["logs:view", "feedback:submit"]
  }

  function Defaults(role: Role): set<string> { SetOf(DefaultList(role)) }

  function SetOf(list: seq<string>): set<string> { set p | p in list }

  lemma SetOfMore(list: seq<string>, i: nat)
    requires i < |list|
    ensures SetOf(list[..i + 1]) == SetOf(list[..i]) + {list[i]}
  {
    assert list[..i + 1] == list[..i] + [list[i]];
  }

  // The attributes of an update; None leaves one as it is
  datatype Patch = Patch(email: Option<string>, role: Option<Role>, isActive: Option<bool>, password: Option<string>)

  datatype Request =
    | Bootstrap(password: string)
    | Register(username: string, email: string, password: string)
    | Create(username: string, email: string, password: string, role: Role, permissions: Option<seq<string>>)
    | Update(id: UserId, patch: Patch, permissions: Option<seq<string>>)
    | SetRole(id: UserId, role: Role)
    | Delete(actor: UserId, id: UserId)

  // HTTP 200, 409, 404 and 400
  datatype Status = Done | Conflict | NotFound | Refused

  // ---------- The tables ----------

  predicate Taken(users: map<UserId, User>, username: string) {
    exists id | id in users :: users[id].username == username
  }

  predicate IsActiveAdmin(u: User) { u.role == Admin && u.isActive }

  function ActiveAdmins(users: map<UserId, User>): set<UserId> { set id | id in users && IsActiveAdmin(users[id]) }

  // COALESCE
  function Or<T>(value: Option<T>, current: T): T { if value.Some? then value.value else current }

  function Changed(u: User, p: Patch): User {
    User(u.username, Or(p.email, u.email), Or(p.role, u.role), Or(p.isActive, u.isActive), Or(p.password, u.password))
  }

  function Inserted(s: State, u: User): State {
    State(s.users[s.nextId := u], s.permissions[s.nextId := Defaults(u.role)], s.nextId + 1, s.custom)
  }

  function Granted(s: State, id: UserId, permissions: Option<seq<string>>): State {
    if permissions.None? then s
    else s.(permissions := s.permissions[id := SetOf(permissions.value)], custom := s.custom + {id})
  }

  // A changed role brings its default permissions, whatever was there before
  function Replaced(s: State, id: UserId, u: User): State
    requires id in s.users
  {
    var t := s.(users := s.users[id := u]);
    if u.role == s.users[id].role then t
    else t.(permissions := s.permissions[id := Defaults(u.role)], custom := s.custom - {id})
  }

  function Removed(s: State, id: UserId): State { State(s.users - {id}, s.permissions - {id}, s.nextId, s.custom - {id}) }

  // ---------- What a request asks for, and when it is refused ----------

  // The request carried out without asking who is left
  function Carried(s: State, r: Request): State {
    match r
    case Bootstrap(password) => Inserted(s, User("admin", "admin@localhost", Admin, true, password))
    case Register(username, email, password) => Inserted(s, User(username, email, Viewer, true, password))
    case Create(username, email, password, role, permissions) =>
      Granted(Inserted(s, User(username, email, role, true, password)), s.nextId, permissions)
    case Update(id, patch, permissions) =>
      if id in s.users then Granted(Replaced(s, id, Changed(s.users[id], patch)), id, permissions) else s
    case SetRole(id, role) => if id in s.users then Replaced(s, id, s.users[id].(role := role)) else s
    case Delete(_, id) => Removed(s, id)
  }

  // An existing active administrator who is the last one loses the role, the activity or the account
  predicate LosesLastAdmin(s: State, r: Request) {
    && (r.Update? || r.SetRole? || r.Delete?)
    && r.id in s.users && IsActiveAdmin(s.users[r.id])
    && |ActiveAdmins(s.users)| <= 1
    && match r
       case Update(_, p, _) => (p.role.Some? && p.role.value != Admin) || p.isActive == Some(false)
       case SetRole(_, role) => role != Admin
       case _ => true
  }

  function StatusOf(s: State, r: Request): Status {
    match r
    case Bootstrap(_) => Done
    case Register(username, _, _) => if Taken(s.users, username) then Conflict else Done
    case Create(username, _, _, _, _) => if Taken(s.users, username) then Conflict else Done
    case Delete(actor, id) =>
      if actor == id then Refused else if id !in s.users then NotFound else if LosesLastAdmin(s, r) then Refused else Done
    case _ => if r.id !in s.users then NotFound else if LosesLastAdmin(s, r) then Refused else Done
  }

  function Handle(s: State, r: Request): State {
    if StatusOf(s, r) != Done || (r.Bootstrap? && (Taken(s.users, "admin") || s.users != map[])) then s else Carried(s, r)
  }

  function Run(s: State, requests: seq<Request>): State {
    if requests == [] then s else Handle(Run(s, requests[..|requests| - 1]), requests[|requests| - 1])
  }

  const EMPTY := State(map[], map[], 1, {})

  // ---------- The handlers ----------

  class Database {
    var users: map<UserId, User>
    var permissions: map<UserId, set<string>>
    var nextId: UserId
    ghost var custom: set<UserId>

    ghost function Now(): State
      reads this
    {
      State(users, permissions, nextId, custom)
    }

    ghost predicate Valid()
      reads this
    {
      forall id :: id in users ==> id < nextId
    }

    constructor ()
      ensures Valid() && Now() == EMPTY
    {
      users, permissions, nextId, custom := map[], map[], 1, {};
    }

    // count_active_admins
    function CountActiveAdmins(): nat
      reads this
    {
      |ActiveAdmins(users)|
    }

    // create_user: the row, and the role's permissions one by one
    method CreateUser(u: User) returns (id: UserId)
      requires Valid()
      modifies this
      ensures Valid() && Now() == Inserted(old(Now()), u) && id == old(nextId)
    {
      id := nextId;
      users := users[id := u];
      nextId := nextId + 1;
      permissions := permissions[id := {}];
      AddPermissions(id, DefaultList(u.role));
      assert {} + Defaults(u.role) == Defaults(u.role);
    }

    // INSERT OR IGNORE for every permission of a list
    method AddPermissions(id: UserId, list: seq<string>)
      requires id in permissions
      modifies this`permissions
      ensures permissions == old(permissions)[id := old(permissions)[id] + SetOf(list)]
    {
      ghost var was := permissions[id];
      assert SetOf(list[..0]) == {} && was + {} == was;
      for i := 0 to |list|
        invariant id in permissions && permissions == old(permissions)[id := old(permissions)[id] + SetOf(list[..i])]
      {
        permissions := permissions[id := permissions[id] + {list[i]}];
        SetOfMore(list, i);
        assert was + SetOf(list[..i]) + {list[i]} == was + SetOf(list[..i + 1]);
      }
      assert list[..|list|] == list;
    }

    // update_user
    method UpdateUser(id: UserId, p: Patch) returns (found: bool)
      requires Valid()
      modifies this
      ensures Valid() && found == (id in old(users))
      ensures Now() == if found then Replaced(old(Now()), id, Changed(old(users)[id], p)) else old(Now())
    {
      found := id in users;
      if found {
        var existing := users[id];
        users := users[id := Changed(existing, p)];
        if p.role.Some? && p.role.value != existing.role {
          permissions := permissions[id := {}];
          AddPermissions(id, DefaultList(p.role.value));
          assert {} + Defaults(p.role.value) == Defaults(p.role.value);
          custom := custom - {id};
        }
      }
    }

    // delete_user, and the permissions that go with the row
    method DeleteUser(id: UserId) returns (found: bool)
      requires Valid()
      modifies this
      ensures Valid() && found == (id in old(users)) && Now() == Removed(old(Now()), id)
    {
      found := id in users;
      users := users - {id};
      permissions := permissions - {id};
      custom := custom - {id};
    }

    method SetUserPermissions(id: UserId, list: seq<string>)
      requires Valid()
      modifies this`permissions, this`custom
      ensures Valid() && Now() == Granted(old(Now()), id, Some(list))
    {
      permissions := permissions[id := {}];
      AddPermissions(id, list);
      assert {} + SetOf(list) == SetOf(list);
      custom := custom + {id};
    }

    method BootstrapAdminUser(password: string)
      requires Valid()
      modifies this
      ensures Valid() && Now() == Handle(old(Now()), Bootstrap(password))
    {
      if Taken(users, "admin") {
        return;
      }
      if users == map[] {
        var _ := CreateUser(User("admin", "admin@localhost", Admin, true, password));
      }
    }

    method RegisterUser(username: string, email: string, password: string) returns (status: Status)
      requires Valid()
      modifies this
      ensures Valid()
      ensures var r := Register(username, email, password); status == StatusOf(old(Now()), r) && Now() == Handle(old(Now()), r)
    {
      if Taken(users, username) {
        return Conflict;
      }
      var _ := CreateUser(User(username, email, Viewer, true, password));
      status := Done;
    }

    method CreateNewUser(username: string, email: string, password: string, role: Role, permissions: Option<seq<string>>)
      returns (status: Status)
      requires Valid()
      modifies this
      ensures Valid()
      ensures var r := Create(username, email, password, role, permissions);
        status == StatusOf(old(Now()), r) && Now() == Handle(old(Now()), r)
    {
      if Taken(users, username) {
        return Conflict;
      }
      var id := CreateUser(User(username, email, role, true, password));
      if permissions.Some? {
        SetUserPermissions(id, permissions.value);
      }
      status := Done;
    }

    method UpdateExistingUser(id: UserId, p: Patch, permissions: Option<seq<string>>) returns (status: Status)
      requires Valid()
      modifies this
      ensures Valid()
      ensures var r := Update(id, p, permissions);
        status == StatusOf(old(Now()), r) && Now() == Handle(old(Now()), r)
    {
      if id !in users {
        return NotFound;
      }
      var existing := users[id];
      if existing.role == Admin && existing.isActive {
        if p.role.Some? && p.role.value != Admin && CountActiveAdmins() <= 1 {
          return Refused;
        }
        if p.isActive == Some(false) && CountActiveAdmins() <= 1 {
          return Refused;
        }
      }
      var found := UpdateUser(id, p);
      if !found {
        return NotFound;
      }
      if permissions.Some? {
        SetUserPermissions(id, permissions.value);
      }
      status := Done;
    }

    method UpdateUserRole(id: UserId, role: Role) returns (status: Status)
      requires Valid()
      modifies this
      ensures Valid() && status == StatusOf(old(Now()), SetRole(id, role)) && Now() == Handle(old(Now()), SetRole(id, role))
    {
      if id !in users {
        return NotFound;
      }
      var existing := users[id];
      if existing.role == Admin && existing.isActive && role != Admin && CountActiveAdmins() <= 1 {
        return Refused;
      }
      var found := UpdateUser(id, Patch(None, Some(role), None, None));
      status := if found then Done else NotFound;
    }

    method DeleteExistingUser(actor: UserId, id: UserId) returns (status: Status)
      requires Valid()
      modifies this
      ensures Valid() && status == StatusOf(old(Now()), Delete(actor, id)) && Now() == Handle(old(Now()), Delete(actor, id))
    {
      if actor == id {
        return Refused;
      }
      if id !in users {
        return NotFound;
      }
      if users[id].role == Admin && users[id].isActive && CountActiveAdmins() <= 1 {
        return Refused;
      }
      var ok := DeleteUser(id);
      status := if ok then Done else NotFound;
    }
  }
}
