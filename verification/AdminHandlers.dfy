/** The handlers step by step: authenticate, check the role, fold the input, guard, act. */
module AdminHandlers {
  import opened Common
  import opened Text
  import opened Accounts
  import opened AdminRuns
  import opened UserStore

  datatype Status = Ok | Created | BadRequest | Unauthorized | Forbidden | NotFound | Conflict | InternalError

  /** The middleware fills a set of allowed roles once and looks the caller up in it. */
  method RequireRole(roles: seq<string>, role: string) returns (allowed: bool)
    ensures allowed <==> role in roles
  {
    var permitted: set<string> := {};
    for i := 0 to |roles|
      invariant forall r :: r in permitted <==> r in roles[..i]
    {
      permitted := permitted + {roles[i]};
    }
    assert roles[..|roles|] == roles;
    allowed := role in permitted;
  }

  /** The reply to a guarded operation: refused by a guard, or the outcome of the store. */
  function Answer(before: Table, op: Option<Operation>, ioOk: bool, refused: Status, done: Status,
      failed: Status): Status {
    if op == None then refused
    else if Report(Apply(before, op.value), ioOk) == Done then done
    else failed
  }

  /** The edit gives the caller another address. */
  predicate Moves(caller: string, p: Profile) {
    NewEmail(caller, TrimmedProfile(p)) != NormalizeEmail(caller)
  }

  /** The edit is made, but the cookie of the new address cannot be issued. */
  predicate CookieFails(caller: Caller, req: Request, cookieOk: bool) {
    req.EditProfile? && Moves(caller.email, req.profile) && !cookieOk
  }

  /** The status of success: creation is told apart. */
  function Success(req: Request): Status {
    if req.CreateUser? then Created else Ok
  }

  class Handler {
    const store: UserStore

    constructor (store: UserStore)
      ensures this.store == store
    {
      this.store := store;
    }

    /** The identity and the role come from the store, whatever the token says. */
    method Auth(userId: string) returns (caller: Option<Caller>)
      ensures caller == Authenticate(store.Image(), userId)
    {
      var user := store.Find(userId);
      caller := if user == null then None else Some(Caller(user.account.email, RoleOf(user.account.roles)));
    }

    method AdminCreateUser(email: string, password: string, role: string, hashed: Option<string>, ioOk: bool)
      returns (status: Status)
      requires store.Unshared()
      modifies store
      ensures store.Unshared() && fresh(store.users.Values - old(store.users.Values))
      ensures var op := Operate(Caller("", ADMIN), CreateUser(email, password, role, hashed));
              && status == Answer(old(store.Image()), op, ioOk, BadRequest, Created, Conflict)
              && store.Image() == (if op == None then old(store.Image()) else Apply(old(store.Image()), op.value).table)
      ensures store.disk == if status == Created then store.Image() else old(store.disk)
    {
      var e, r := TrimSpace(Lower(email)), TrimSpace(Lower(role));
      if e == "" || password == "" {
        return BadRequest;
      }
      if !ValidRole(r) {
        r := VIEWER;
      }
      var u := new User(Account(e, e, password, [r], "", "", "", ""));
      var outcome := store.Add(u, hashed, ioOk);
      status := if outcome == Done then Created else Conflict;
    }

    method AdminDeleteUser(caller: string, path: string, ioOk: bool) returns (status: Status)
      requires store.Unshared()
      modifies store
      ensures store.Unshared() && store.users.Values <= old(store.users.Values)
      ensures var op := Operate(Caller(caller, ADMIN), DeleteUser(path));
              && status == Answer(old(store.Image()), op, ioOk, BadRequest, Ok, Status.NotFound)
              && store.Image() == (if op == None then old(store.Image()) else Apply(old(store.Image()), op.value).table)
      ensures store.disk == if status == Ok then store.Image() else old(store.disk)
    {
      var email := TrimSpace(Lower(path));
      if email == "" {
        return BadRequest;
      }
      if email == caller {
        return BadRequest;
      }
      var outcome := store.Delete(email, ioOk);
      status := if outcome == Done then Ok else Status.NotFound;
    }

    method AdminChangeRole(caller: string, path: string, role: string, ioOk: bool) returns (status: Status)
      requires store.Unshared()
      modifies store, store.users.Values
      ensures store.Unshared() && store.users == old(store.users)
      ensures var op := Operate(Caller(caller, ADMIN), ChangeRole(path, role));
              && status == Answer(old(store.Image()), op, ioOk, BadRequest, Ok, BadRequest)
              && store.Image() == (if op == None then old(store.Image()) else Apply(old(store.Image()), op.value).table)
      ensures store.disk == if status == Ok then store.Image() else old(store.disk)
    {
      var email := TrimSpace(Lower(path));
      if email == "" {
        return BadRequest;
      }
      var r := TrimSpace(Lower(role));
      if email == caller && r != ADMIN {
        return BadRequest;
      }
      var outcome := store.SetRole(email, r, ioOk);
      status := if outcome == Done then Ok else BadRequest;
    }

    /** A change of address makes the handler issue a new cookie; when that fails, the change
        stays in place. */
    method UpdateProfile(caller: string, p: Profile, cookieOk: bool, ioOk: bool) returns (status: Status)
      requires store.Unshared()
      modifies store, store.users.Values
      ensures store.Unshared() && store.users.Values <= old(store.users.Values)
      ensures var op := Operate(Caller(caller, OPERATOR), EditProfile(p));
              && status == Answer(old(store.Image()), op, ioOk, Unauthorized,
                                  if Moves(caller, p) && !cookieOk then InternalError else Ok, BadRequest)
              && store.Image() == (if op == None then old(store.Image()) else Apply(old(store.Image()), op.value).table)
      ensures store.disk == if status == Ok || status == InternalError then store.Image() else old(store.disk)
    {
      if caller == "" {
        return Unauthorized;
      }
      var trimmed := Profile(TrimSpace(Lower(p.newEmail)), TrimSpace(p.displayName), TrimSpace(p.avatar),
                             TrimSpace(p.photoUrl), TrimSpace(p.sshKey));
      var outcome, emailChanged := store.UpdateProfile(caller, trimmed, ioOk);
      if outcome != Done {
        return BadRequest;
      }
      if emailChanged {
        if !cookieOk {
          return InternalError;
        }
      }
      status := Ok;
    }

    method ChangeOwnPassword(caller: string, newPassword: string, matches: bool, hashed: Option<string>, ioOk: bool)
      returns (status: Status)
      requires store.Unshared()
      modifies store, store.users.Values
      ensures store.Unshared() && store.users == old(store.users)
      ensures var op := Operate(Caller(caller, OPERATOR), ChangePassword(newPassword, matches, hashed));
              && status == Answer(old(store.Image()), op, ioOk, Unauthorized, Ok, BadRequest)
              && store.Image() == (if op == None then old(store.Image()) else Apply(old(store.Image()), op.value).table)
      ensures store.disk == if status == Ok then store.Image() else old(store.disk)
    {
      if caller == "" {
        return Unauthorized;
      }
      var outcome := store.UpdatePassword(caller, newPassword, matches, hashed, ioOk);
      status := if outcome == Done then Ok else BadRequest;
    }

    /** The handlers of the own account. */
    method DispatchOwn(caller: Caller, req: Request, cookieOk: bool, ioOk: bool) returns (status: Status)
      requires store.Unshared() && Allowed(caller.role, req) && (req.EditProfile? || req.ChangePassword?)
      modifies store, store.users.Values
      ensures store.Unshared() && status != Forbidden
      ensures store.Image() == Act(old(store.Image()), caller, req)
      ensures store.disk == if ioOk && Accepted(old(store.Image()), caller, req) then store.Image() else old(store.disk)
      ensures status == Success(req) <==>
                ioOk && Accepted(old(store.Image()), caller, req) && !CookieFails(caller, req, cookieOk)
    {
      match req
      case EditProfile(p) =>
        status := UpdateProfile(caller.email, p, cookieOk, ioOk);
      case ChangePassword(newPassword, matches, hashed) =>
        status := ChangeOwnPassword(caller.email, newPassword, matches, hashed, ioOk);
    }

    /** The handler of a request whose role was let through. */
    method Dispatch(caller: Caller, req: Request, cookieOk: bool, ioOk: bool) returns (status: Status)
      requires store.Unshared() && Allowed(caller.role, req)
      modifies store, store.users.Values
      ensures store.Unshared() && status != Forbidden
      ensures store.Image() == Act(old(store.Image()), caller, req)
      ensures store.disk == if ioOk && Accepted(old(store.Image()), caller, req) then store.Image() else old(store.disk)
      ensures status == Success(req) <==>
                ioOk && Accepted(old(store.Image()), caller, req) && !CookieFails(caller, req, cookieOk)
    {
      match req
      case CreateUser(email, password, role, hashed) =>
        status := AdminCreateUser(email, password, role, hashed, ioOk);
      case DeleteUser(path) =>
        status := AdminDeleteUser(caller.email, path, ioOk);
      case ChangeRole(path, role) =>
        status := AdminChangeRole(caller.email, path, role, ioOk);
      case EditProfile(_) =>
        status := DispatchOwn(caller, req, cookieOk, ioOk);
      case ChangePassword(_, _, _) =>
        status := DispatchOwn(caller, req, cookieOk, ioOk);
    }

    /** A whole request: the store moves exactly as the transition says, and only a success is
        written to the file. */
    method ServeRequest(userId: string, req: Request, cookieOk: bool, ioOk: bool) returns (status: Status)
      requires store.Unshared()
      modifies store, store.users.Values
      ensures store.Unshared()
      ensures store.Image() == Serve(old(store.Image()), userId, req)
      ensures store.disk == if ioOk && Succeeds(old(store.Image()), userId, req) then store.Image() else old(store.disk)
      ensures var caller := Authenticate(old(store.Image()), userId);
              && (caller == None ==> status == Unauthorized)
              && (caller != None ==> (status == Forbidden <==> !Allowed(caller.value.role, req)))
              && (caller != None ==>
                    (status == Success(req) <==>
                       ioOk && Succeeds(old(store.Image()), userId, req) && !CookieFails(caller.value, req, cookieOk)))
    {
      var who := Auth(userId);
      if who == None {
        return Unauthorized;
      }
      var caller := who.value;
      var allowed := RouteAllows(caller.role, req);
      if !allowed {
        return Forbidden;
      }
      status := Dispatch(caller, req, cookieOk, ioOk);
    }
  }

  /** The role lists of the routes. */
  method RouteAllows(role: string, req: Request) returns (allowed: bool)
    ensures allowed <==> Allowed(role, req)
  {
    match req
    case CreateUser(_, _, _, _) => allowed := RequireRole([ADMIN], role);
    case DeleteUser(_) => allowed := RequireRole([ADMIN], role);
    case ChangeRole(_, _) => allowed := RequireRole([ADMIN], role);
    case EditProfile(_) => allowed := role != VIEWER;
    case ChangePassword(_, _, _) => allowed := RequireRole([ADMIN, OPERATOR], role);
  }
}
