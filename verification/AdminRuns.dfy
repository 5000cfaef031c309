/** Authenticated requests as transitions of the account table. */
module AdminRuns {
  import opened Common
  import opened Text
  import opened Accounts
  import opened LoadPass

  datatype Caller = Caller(email: string, role: string)

  datatype Request =
    | CreateUser(email: string, password: string, role: string, hashed: Option<string>)
    | DeleteUser(path: string)
    | ChangeRole(path: string, role: string)
    | EditProfile(profile: Profile)
    | ChangePassword(newPassword: string, matches: bool, hashed: Option<string>)

  /** The session names a user; identity and role are read from the store, not the token. */
  function Authenticate(t: Table, userId: string): Option<Caller> {
    var k := NormalizeEmail(userId);
    if k in t then Some(Caller(t[k].email, RoleOf(t[k].roles))) else None
  }

  /** The roles a route lets through. */
  predicate Allowed(role: string, req: Request) {
    match req
    case CreateUser(_, _, _, _) => role == ADMIN
    case DeleteUser(_) => role == ADMIN
    case ChangeRole(_, _) => role == ADMIN
    case EditProfile(_) => role != VIEWER
    case ChangePassword(_, _, _) => role == ADMIN || role == OPERATOR
  }

  /** What the handlers make of an address or a role typed by a user. */
  function Folded(s: string): string {
    TrimSpace(Lower(s))
  }

  function NewAccount(email: string, password: string, role: string): Account {
    Account(email, email, password, [if ValidRole(role) then role else VIEWER], "", "", "", "")
  }

  function TrimmedProfile(p: Profile): Profile {
    Profile(Folded(p.newEmail), TrimSpace(p.displayName), TrimSpace(p.avatar), TrimSpace(p.photoUrl),
        TrimSpace(p.sshKey))
  }

  /** The handler body: guards of its own, then one store operation; None means refused. */
  function Operate(caller: Caller, req: Request): Option<Operation> {
    match req
    case CreateUser(email, password, role, hashed) =>
      if Folded(email) == "" || password == "" then None
      else Some(Add(NewAccount(Folded(email), password, Folded(role)), hashed))
    case DeleteUser(path) =>
      if Folded(path) == "" || Folded(path) == caller.email then None
      else Some(Delete(Folded(path)))
    case ChangeRole(path, role) =>
      if Folded(path) == "" || (Folded(path) == caller.email && Folded(role) != ADMIN) then None
      else Some(SetRole(Folded(path), Folded(role)))
    case EditProfile(profile) =>
      if caller.email == "" then None else Some(SetProfile(caller.email, TrimmedProfile(profile)))
    case ChangePassword(newPassword, matches, hashed) =>
      if caller.email == "" then None else Some(SetPassword(caller.email, newPassword, matches, hashed))
  }

  function Act(t: Table, caller: Caller, req: Request): Table {
    if !Allowed(caller.role, req) then t
    else
      match Operate(caller, req)
      case None => t
      case Some(op) => Apply(t, op).table
  }

  /** One request served from start to end. */
  function Serve(t: Table, userId: string, req: Request): Table {
    match Authenticate(t, userId)
    case None => t
    case Some(caller) => Act(t, caller, req)
  }

  /** The request goes through without an error. */
  predicate Succeeds(t: Table, userId: string, req: Request) {
    match Authenticate(t, userId)
    case None => false
    case Some(caller) => Accepted(t, caller, req)
  }

  predicate Accepted(t: Table, caller: Caller, req: Request) {
    Allowed(caller.role, req)
    && match Operate(caller, req)
       case None => false
       case Some(op) => Apply(t, op).error == None
  }

  /** A first OAuth sign-in may create a viewer. */
  function SignIn(t: Table, email: string, autoCreate: bool): Table {
    var e := NormalizeEmail(email);
    if e !in t && autoCreate then
      Added(t, Account(e, e, "", [VIEWER], "", "", "", ""), None).table
    else t
  }

  datatype Step = Request(userId: string, req: Request) | OAuth(email: string, autoCreate: bool)

  function Take(t: Table, s: Step): Table {
    match s
    case Request(userId, req) => Serve(t, userId, req)
    case OAuth(email, autoCreate) => SignIn(t, email, autoCreate)
  }

  function After(t: Table, steps: seq<Step>): Table {
    if steps == [] then t else Take(After(t, steps[..|steps| - 1]), steps[|steps| - 1])
  }

  // ---------------------------------------------------------------- an admin remains

  /** Adding an account never touches another one. */
  lemma AddKeepsAdmin(t: Table, u: Account, hashed: Option<string>, k: string)
    requires IsAdmin(t, k)
    ensures IsAdmin(Added(t, u, hashed).table, k)
  {
  }

  lemma PasswordKeepsAdmin(t: Table, email: string, newPassword: string, matches: bool, hashed: Option<string>,
      k: string)
    requires IsAdmin(t, k)
    ensures IsAdmin(PasswordSet(t, email, newPassword, matches, hashed).table, k)
  {
  }

  /** Renaming moves the role along. */
  lemma ProfileKeepsAdmin(t: Table, email: string, p: Profile, k: string)
    requires Keyed(t) && IsAdmin(t, k)
    ensures HasAdmin(ProfileSet(t, email, p).table)
  {
    RenameMovesOne(t, email, p);
    var c := ProfileSet(t, email, p);
    if k == NormalizeEmail(email) && c.error == None {
      assert IsAdmin(c.table, NewEmail(email, p));
    } else if k == NormalizeEmail(email) || k != NewEmail(email, p) || c.error != None {
      assert IsAdmin(c.table, k);
    }
  }

  lemma RoleOfOne(role: string)
    requires ValidRole(role)
    ensures Lower(TrimSpace(role)) == role && RoleOf([role]) == role
  {
    var fixed := [ADMIN, OPERATOR, VIEWER];
    assert forall i :: 0 <= i < 3 ==> Lower(TrimSpace(fixed[i])) == fixed[i];
    assert role in fixed;
  }

  /** The guards compare with the key the store will use. */
  lemma FoldedIsKey(s: string)
    ensures NormalizeEmail(Folded(s)) == Folded(s)
  {
    NormalizationsAgree(s);
    NormalizeIdempotent(s);
  }

  /** Deleting somebody else leaves the caller an admin. */
  lemma DeleteKeepsCaller(t: Table, caller: string, path: string)
    requires IsAdmin(t, caller) && Folded(path) != caller
    ensures IsAdmin(Deleted(t, Folded(path)).table, caller)
  {
    FoldedIsKey(path);
  }

  /** So does changing a role, unless it is the caller's own and not to admin. */
  lemma RoleKeepsCaller(t: Table, caller: string, path: string, role: string)
    requires IsAdmin(t, caller) && (Folded(path) == caller ==> role == ADMIN)
    ensures IsAdmin(RoleSet(t, Folded(path), role).table, caller)
  {
    FoldedIsKey(path);
    RoleOfOne(ADMIN);
  }

  lemma OperationKeepsAdmin(t: Table, caller: Caller, req: Request, k: string)
    requires Keyed(t) && IsAdmin(t, k) && Allowed(caller.role, req)
    requires caller.role == ADMIN ==> IsAdmin(t, caller.email)
    requires Operate(caller, req).Some?
    ensures HasAdmin(Apply(t, Operate(caller, req).value).table)
  {
    var op := Operate(caller, req).value;
    match req
    case CreateUser(_, _, _, _) =>
      AddKeepsAdmin(t, op.user, op.hashed, k);
    case EditProfile(_) =>
      ProfileKeepsAdmin(t, op.email, op.profile, k);
    case ChangePassword(_, _, _) =>
      PasswordKeepsAdmin(t, op.email, op.newPassword, op.matches, op.hashed, k);
    case DeleteUser(path) =>
      DeleteKeepsCaller(t, caller.email, path);
    case ChangeRole(path, role) =>
      RoleKeepsCaller(t, caller.email, path, Folded(role));
  }

  lemma ServeKeeps(t: Table, userId: string, req: Request)
    requires Keyed(t) && HasAdmin(t)
    ensures Keyed(Serve(t, userId, req)) && HasAdmin(Serve(t, userId, req))
  {
    var k :| IsAdmin(t, k);
    if Authenticate(t, userId).Some? {
      var caller := Authenticate(t, userId).value;
      if Allowed(caller.role, req) && Operate(caller, req).Some? {
        OperationKeeps(t, Operate(caller, req).value);
        OperationKeepsAdmin(t, caller, req, k);
      }
    }
  }

  lemma SignInKeeps(t: Table, email: string, autoCreate: bool)
    requires Keyed(t) && HasAdmin(t)
    ensures Keyed(SignIn(t, email, autoCreate)) && HasAdmin(SignIn(t, email, autoCreate))
  {
    var k :| IsAdmin(t, k);
    var e := NormalizeEmail(email);
    var u := Account(e, e, "", [VIEWER], "", "", "", "");
    OperationKeeps(t, Add(u, None));
    AddKeepsAdmin(t, u, None, k);
  }

  /** Served one after the other, requests never leave the store without an admin. */
  lemma {:induction false} AdminRemains(t: Table, steps: seq<Step>)
    requires Keyed(t) && HasAdmin(t)
    ensures Keyed(After(t, steps)) && HasAdmin(After(t, steps))
  {
    if steps != [] {
      AdminRemains(t, steps[..|steps| - 1]);
      var before, last := After(t, steps[..|steps| - 1]), steps[|steps| - 1];
      match last
      case Request(userId, req) => ServeKeeps(before, userId, req);
      case OAuth(email, autoCreate) => SignInKeeps(before, email, autoCreate);
    }
  }

  lemma KeyIsFolded(t: Table, k: string)
    requires Keyed(t) && k in t
    ensures Folded(k) == k && NormalizeEmail(k) == k
  {
    NormalizationsAgree(k);
  }

  // ---------------------------------------------------------------- reloading

  lemma OperationKeepsRoles(t: Table, op: Operation)
    requires Keyed(t) && RolesPresent(t)
    requires op.Add? ==> op.user.roles != []
    ensures RolesPresent(Apply(t, op).table)
  {
    if op.SetProfile? {
      RenameMovesOne(t, op.email, op.profile);
    }
  }

  lemma ServeKeepsRoles(t: Table, userId: string, req: Request)
    requires Keyed(t) && RolesPresent(t)
    ensures RolesPresent(Serve(t, userId, req))
  {
    if Authenticate(t, userId).Some? {
      var caller := Authenticate(t, userId).value;
      if Allowed(caller.role, req) && Operate(caller, req).Some? {
        OperationKeepsRoles(t, Operate(caller, req).value);
      }
    }
  }

  lemma {:induction false} RunKeepsRoles(t: Table, steps: seq<Step>)
    requires Keyed(t) && HasAdmin(t) && RolesPresent(t)
    ensures RolesPresent(After(t, steps))
  {
    if steps != [] {
      RunKeepsRoles(t, steps[..|steps| - 1]);
      AdminRemains(t, steps[..|steps| - 1]);
      if steps[|steps| - 1].Request? {
        ServeKeepsRoles(After(t, steps[..|steps| - 1]), steps[|steps| - 1].userId, steps[|steps| - 1].req);
      }
    }
  }

  /** Loading what any run of requests saved gives the same table back, in every iteration
      order of the load pass. */
  lemma ReloadIsIdentity(t: Table, steps: seq<Step>, visits: seq<string>)
    requires Keyed(t) && HasAdmin(t) && RolesPresent(t)
    ensures Rehash(After(t, steps), visits) == After(t, steps)
  {
    AdminRemains(t, steps);
    RunKeepsRoles(t, steps);
    RehashIdentity(After(t, steps), visits);
  }
}
