/**
  Whole-run properties of the accounts: the last active administrator is never lost, permissions are
  the role's unless a request set others, and names and ids stay unique.
*/
module AccountTheorems {
  import opened Text
  import opened Accounts

  // Both tables have the same users, ids are handed out once, names are unique, and permissions that
  // no request has set since the last change of role are the role's
  ghost predicate Consistent(s: State) {
    && s.permissions.Keys == s.users.Keys && s.custom <= s.users.Keys
    && (forall id :: id in s.users ==> id < s.nextId)
    && (forall i, j :: i in s.users && j in s.users && s.users[i].username == s.users[j].username ==> i == j)
    && (forall id :: id in s.users && id !in s.custom ==> s.permissions[id] == Defaults(s.users[id].role))
  }

  lemma HandleKeeps(s: State, r: Request)
    requires Consistent(s)
    ensures Consistent(Handle(s, r))
  {
    hide Defaults, Consistent;
    if Handle(s, r) == s { return; }
    match r {
      case Bootstrap(password) => InsertKeeps(s, User("admin", "admin@localhost", Admin, true, password));
      case Register(username, email, password) => InsertKeeps(s, User(username, email, Viewer, true, password));
      case Create(username, email, password, role, permissions) =>
        InsertKeeps(s, User(username, email, role, true, password));
        GrantKeeps(Inserted(s, User(username, email, role, true, password)), s.nextId, permissions);
      case Update(id, patch, permissions) =>
        ReplaceKeeps(s, id, Changed(s.users[id], patch));
        GrantKeeps(Replaced(s, id, Changed(s.users[id], patch)), id, permissions);
      case SetRole(id, role) => ReplaceKeeps(s, id, s.users[id].(role := role));
      case Delete(_, id) => RemoveKeeps(s, id);
    }
  }

  lemma InsertKeeps(s: State, u: User)
    requires Consistent(s) && !Taken(s.users, u.username)
    ensures Consistent(Inserted(s, u)) && s.nextId in Inserted(s, u).users
  {
    hide Defaults;
  }

  lemma GrantKeeps(s: State, id: UserId, permissions: Option<seq<string>>)
    requires Consistent(s) && id in s.users
    ensures Consistent(Granted(s, id, permissions))
  {
    hide Defaults;
  }

  lemma ReplaceKeeps(s: State, id: UserId, u: User)
    requires Consistent(s) && id in s.users && u.username == s.users[id].username
    ensures Consistent(Replaced(s, id, u)) && id in Replaced(s, id, u).users
  {
    hide Defaults;
  }

  lemma RemoveKeeps(s: State, id: UserId)
    requires Consistent(s)
    ensures Consistent(Removed(s, id))
  {
    hide Defaults;
  }

  lemma {:induction false} RunKeeps(s: State, requests: seq<Request>)
    requires Consistent(s)
    ensures Consistent(Run(s, requests))
  {
    if requests != [] {
      RunKeeps(s, requests[..|requests| - 1]);
      HandleKeeps(Run(s, requests[..|requests| - 1]), requests[|requests| - 1]);
    }
  }

  ghost predicate HasAdmin(s: State) { exists id :: id in s.users && IsActiveAdmin(s.users[id]) }

  lemma OneAdminLeft(s: State, id: UserId)
    requires id in s.users && IsActiveAdmin(s.users[id])
    ensures |ActiveAdmins(s.users)| <= 1 <==> forall other :: other in s.users && IsActiveAdmin(s.users[other]) ==> other == id
  {
    var admins := ActiveAdmins(s.users);
    if |admins| <= 1 {
      forall other | other in s.users && IsActiveAdmin(s.users[other]) ensures other == id {
        if other != id { SubsetSize({id, other}, admins); }
      }
    }
    if forall other :: other in s.users && IsActiveAdmin(s.users[other]) ==> other == id {
      assert admins == {id};
    }
  }

  // Who is an active administrator after a request on one account: the others as before
  lemma OthersStay(s: State, r: Request, other: UserId)
    requires r.Update? || r.SetRole? || r.Delete?
    requires other != r.id
    ensures other in Carried(s, r).users <==> other in s.users
    ensures other in s.users ==> Carried(s, r).users[other] == s.users[other]
  {
  }

  // A request is refused exactly when it would leave no active administrator, or is an attempt to
  // delete one's own account
  lemma RefusedIff(s: State, r: Request)
    requires HasAdmin(s) && (r.Update? || r.SetRole? || r.Delete?)
    ensures StatusOf(s, r) == Refused <==> (r.Delete? && r.actor == r.id) || !HasAdmin(Carried(s, r))
  {
    var t := Carried(s, r);
    if r.id in s.users && IsActiveAdmin(s.users[r.id]) {
      OneAdminLeft(s, r.id);
      if |ActiveAdmins(s.users)| > 1 {
        var other :| other in s.users && IsActiveAdmin(s.users[other]) && other != r.id;
        OthersStay(s, r, other);
      } else {
        if !LosesLastAdmin(s, r) {
          assert r.id in t.users && IsActiveAdmin(t.users[r.id]);
        }
        forall other | other != r.id ensures !(other in t.users && IsActiveAdmin(t.users[other])) {
          OthersStay(s, r, other);
        }
      }
    } else {
      var admin :| admin in s.users && IsActiveAdmin(s.users[admin]);
      OthersStay(s, r, admin);
    }
  }

  lemma HandleKeepsAdmin(s: State, r: Request)
    requires HasAdmin(s) && (forall id :: id in s.users ==> id < s.nextId)
    ensures HasAdmin(Handle(s, r))
  {
    if r.Update? || r.SetRole? || r.Delete? {
      RefusedIff(s, r);
    } else {
      var admin :| admin in s.users && IsActiveAdmin(s.users[admin]);
      assert admin in Handle(s, r).users && Handle(s, r).users[admin] == s.users[admin];
    }
  }

  // Every run of requests that starts with an active administrator keeps one, and keeps the tables
  // consistent
  lemma {:induction false} AdminOverAnyRun(s: State, requests: seq<Request>)
    requires Consistent(s) && HasAdmin(s)
    ensures Consistent(Run(s, requests)) && HasAdmin(Run(s, requests))
  {
    if requests != [] {
      var init := requests[..|requests| - 1];
      AdminOverAnyRun(s, init);
      HandleKeeps(Run(s, init), requests[|requests| - 1]);
      HandleKeepsAdmin(Run(s, init), requests[|requests| - 1]);
    }
  }

  // From an empty database on, once the bootstrap has run there always is one
  lemma BootstrappedRun(password: string, requests: seq<Request>)
    ensures HasAdmin(Run(Handle(EMPTY, Bootstrap(password)), requests)) && Consistent(Run(Handle(EMPTY, Bootstrap(password)), requests))
  {
    var s := Handle(EMPTY, Bootstrap(password));
    assert 1 in s.users && IsActiveAdmin(s.users[1]);
    HandleKeeps(EMPTY, Bootstrap(password));
    AdminOverAnyRun(s, requests);
  }

  // Whether a run has left the permissions of this user to the role: since the last request that
  // changed the role, none has set permissions
  ghost predicate LeftToRole(s: State, requests: seq<Request>, id: UserId) {
    if requests == [] then id !in s.custom
    else
      var (init, r) := (requests[..|requests| - 1], requests[|requests| - 1]);
      var before := Run(s, init);
      var after := Run(s, requests);
      if StatusOf(before, r) == Done && ((r.Create? && id == before.nextId) || (r.Update? && r.id == id)) && r.permissions.Some? then false
      else if id in before.users && id in after.users && before.users[id].role != after.users[id].role then true
      else id !in before.users || LeftToRole(s, init, id)
  }

  lemma CustomStep(s: State, r: Request, id: UserId)
    requires Consistent(s) && id in Handle(s, r).users
    ensures var t := Handle(s, r);
      id in t.custom <==>
        if StatusOf(s, r) == Done && ((r.Create? && id == s.nextId) || (r.Update? && r.id == id)) && r.permissions.Some? then true
        else id in s.users && s.users[id].role == t.users[id].role && id in s.custom
  {
  }

  lemma {:induction false} CustomIff(s: State, requests: seq<Request>, id: UserId)
    requires Consistent(s) && id in Run(s, requests).users
    ensures LeftToRole(s, requests, id) <==> id !in Run(s, requests).custom
  {
    if requests != [] {
      hide Handle, Consistent;
      var (init, r) := (requests[..|requests| - 1], requests[|requests| - 1]);
      RunKeeps(s, init);
      CustomStep(Run(s, init), r, id);
      if id in Run(s, init).users { CustomIff(s, init, id); }
    }
  }

  // The permissions of a user are those of the role as long as no request has set others since the
  // role last changed; a change of role discards them even then
  lemma PermissionsFollowRole(s: State, requests: seq<Request>, id: UserId)
    requires Consistent(s) && id in Run(s, requests).users && LeftToRole(s, requests, id)
    ensures id in Run(s, requests).permissions && Run(s, requests).permissions[id] == Defaults(Run(s, requests).users[id].role)
  {
    RunKeeps(s, requests);
    CustomIff(s, requests, id);
  }

  // Refused and failed requests change nothing, and no request touches another account
  lemma OnlyTheNamed(s: State, r: Request, id: UserId)
    requires Consistent(s) && id in s.users && !((r.Update? || r.SetRole? || r.Delete?) && r.id == id)
    ensures var t := Handle(s, r); id in t.users && t.users[id] == s.users[id] && t.permissions[id] == s.permissions[id]
  {
  }

  lemma NameStep(s: State, r: Request, id: UserId)
    requires Consistent(s) && id < s.nextId && id in Handle(s, r).users
    ensures id in s.users && Handle(s, r).users[id].username == s.users[id].username
  {
  }

  // A number once handed out names the same account for ever
  lemma {:induction false} NamesAreFixed(s: State, requests: seq<Request>, id: UserId)
    requires Consistent(s) && id < s.nextId && id in Run(s, requests).users
    ensures id in s.users && Run(s, requests).users[id].username == s.users[id].username
  {
    if requests != [] {
      hide Handle, Consistent;
      var init := requests[..|requests| - 1];
      RunKeeps(s, init);
      NextIdGrows(s, init);
      NameStep(Run(s, init), requests[|requests| - 1], id);
      NamesAreFixed(s, init, id);
    }
  }

  lemma {:induction false} NextIdGrows(s: State, requests: seq<Request>)
    ensures s.nextId <= Run(s, requests).nextId
  {
    if requests != [] { NextIdGrows(s, requests[..|requests| - 1]); }
  }
}
