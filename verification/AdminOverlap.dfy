/** Admin requests that overlap: authentication and action are separate critical sections, so
    a request may act for a caller who has since been renamed, demoted or deleted. */
module AdminOverlap {
  import opened Common
  import opened Text
  import opened Accounts
  import opened AdminRuns

  /** The one account a request would strip of the admin role: the guards of the handlers
      compare with the key and the role the caller had when the request was authenticated. */
  ghost predicate Removes(caller: Caller, req: Request, k: string) {
    && Allowed(caller.role, req) && k != "" && k != caller.email
    && match req
       case DeleteUser(path) => k == Folded(path)
       case ChangeRole(path, role) => k == Folded(path) && ValidRole(Folded(role)) && Folded(role) != ADMIN
       case _ => false
  }

  ghost predicate LeavesAdmin(t: Table, caller: Caller, req: Request) {
    exists k :: IsAdmin(t, k) && !Removes(caller, req, k)
  }

  lemma DeletedAdmins(t: Table, caller: Caller, path: string, k: string)
    requires Allowed(caller.role, DeleteUser(path))
    ensures IsAdmin(Act(t, caller, DeleteUser(path)), k) <==> IsAdmin(t, k) && !Removes(caller, DeleteUser(path), k)
  {
    FoldedIsKey(path);
  }

  lemma FoldedRole(role: string)
    ensures Lower(TrimSpace(Folded(role))) == Folded(role)
    ensures ValidRole(Folded(role)) ==> RoleOf([Folded(role)]) == Folded(role)
  {
    FoldedIsKey(role);
  }

  lemma DemotedAdmins(t: Table, caller: Caller, path: string, role: string, k: string)
    requires Allowed(caller.role, ChangeRole(path, role)) && Folded(role) != ADMIN
    ensures IsAdmin(Act(t, caller, ChangeRole(path, role)), k)
            <==> IsAdmin(t, k) && !Removes(caller, ChangeRole(path, role), k)
  {
    FoldedIsKey(path);
    FoldedRole(role);
  }

  lemma PromotionKeeps(t: Table, caller: Caller, path: string, role: string, k: string)
    requires IsAdmin(t, k) && Folded(role) == ADMIN
    ensures IsAdmin(Act(t, caller, ChangeRole(path, role)), k)
  {
    FoldedIsKey(path);
    FoldedRole(role);
  }

  lemma OtherRequestsKeep(t: Table, caller: Caller, req: Request)
    requires Keyed(t) && HasAdmin(t) && !req.DeleteUser? && !req.ChangeRole?
    ensures HasAdmin(Act(t, caller, req))
  {
    var k :| IsAdmin(t, k);
    if Allowed(caller.role, req) && Operate(caller, req).Some? {
      var op := Operate(caller, req).value;
      match req
      case CreateUser(_, _, _, _) => AddKeepsAdmin(t, op.user, op.hashed, k);
      case EditProfile(_) => ProfileKeepsAdmin(t, op.email, op.profile, k);
      case ChangePassword(_, _, _) => PasswordKeepsAdmin(t, op.email, op.newPassword, op.matches, op.hashed, k);
    }
  }

  /** The exact condition for one action, whoever the caller has become meanwhile: an admin
      remains if and only if some admin is not the one the request removes. */
  lemma ActKeepsAdminIff(t: Table, caller: Caller, req: Request)
    requires Keyed(t) && HasAdmin(t)
    ensures HasAdmin(Act(t, caller, req)) <==> LeavesAdmin(t, caller, req)
  {
    var k :| IsAdmin(t, k);
    if !Allowed(caller.role, req) {
      assert !Removes(caller, req, k);
    } else {
      match req
      case DeleteUser(path) =>
        forall j { DeletedAdmins(t, caller, path, j); }
      case ChangeRole(path, role) =>
        if Folded(role) == ADMIN {
          assert !Removes(caller, req, k);
          PromotionKeeps(t, caller, path, role, k);
        } else {
          forall j { DemotedAdmins(t, caller, path, role, j); }
        }
      case _ =>
        assert !Removes(caller, req, k);
        OtherRequestsKeep(t, caller, req);
    }
  }

  // ---------------------------------------------------------------- interleavings

  /** A request enters when the middleware reads its caller from the store, and is handled
      later; a first sign-in adds a viewer. */
  datatype Move =
    | Enter(thread: nat, userId: string)
    | Handle(thread: nat, req: Request)
    | Enroll(email: string)

  datatype System = System(table: Table, callers: map<nat, Caller>)

  function NewViewer(email: string): Account {
    var e := NormalizeEmail(email);
    Account(e, e, "", [VIEWER], "", "", "", "")
  }

  function Go(s: System, m: Move): System {
    match m
    case Enter(thread, userId) =>
      (match Authenticate(s.table, userId)
       case None => s.(callers := s.callers - {thread})
       case Some(caller) => s.(callers := s.callers[thread := caller]))
    case Handle(thread, req) =>
      if thread in s.callers then System(Act(s.table, s.callers[thread], req), s.callers - {thread}) else s
    case Enroll(email) => s.(table := Added(s.table, NewViewer(email), None).table)
  }

  function Exec(s: System, ms: seq<Move>): System {
    if ms == [] then s else Go(Exec(s, ms[..|ms| - 1]), ms[|ms| - 1])
  }

  /** The step does not strip the last admin. */
  ghost predicate Spares(s: System, m: Move) {
    m.Handle? && m.thread in s.callers ==> LeavesAdmin(s.table, s.callers[m.thread], m.req)
  }

  lemma MoveKeepsAdminIff(s: System, m: Move)
    requires Keyed(s.table) && HasAdmin(s.table)
    ensures HasAdmin(Go(s, m).table) <==> Spares(s, m)
  {
    match m
    case Enter(_, _) =>
    case Handle(thread, req) =>
      if thread in s.callers {
        ActKeepsAdminIff(s.table, s.callers[thread], req);
      }
    case Enroll(email) =>
      var k :| IsAdmin(s.table, k);
      AddKeepsAdmin(s.table, NewViewer(email), None, k);
  }

  lemma MoveKeepsKeyed(s: System, m: Move)
    requires Keyed(s.table)
    ensures Keyed(Go(s, m).table)
  {
    match m
    case Enter(_, _) =>
    case Handle(thread, req) =>
      if thread in s.callers && Operate(s.callers[thread], req).Some? {
        OperationKeeps(s.table, Operate(s.callers[thread], req).value);
      }
    case Enroll(email) => OperationKeeps(s.table, Add(NewViewer(email), None));
  }

  lemma {:induction false} KeyedThroughout(s: System, ms: seq<Move>)
    requires Keyed(s.table)
    ensures Keyed(Exec(s, ms).table)
  {
    if ms != [] {
      KeyedThroughout(s, ms[..|ms| - 1]);
      MoveKeepsKeyed(Exec(s, ms[..|ms| - 1]), ms[|ms| - 1]);
    }
  }

  /** The state before step n of a run, and after the whole run for n = |ms|. */
  function StateAt(s: System, ms: seq<Move>, n: nat): System
    requires n <= |ms|
  {
    Exec(s, ms[..n])
  }

  lemma NextState(s: System, ms: seq<Move>, n: nat)
    requires n < |ms|
    ensures StateAt(s, ms, n + 1) == Go(StateAt(s, ms, n), ms[n])
  {
    assert ms[..n + 1][..n] == ms[..n];
  }

  lemma {:induction false} SparedUpTo(s: System, ms: seq<Move>, n: nat)
    requires n <= |ms| && Keyed(s.table) && HasAdmin(s.table)
    requires forall i :: 0 <= i < n ==> Spares(StateAt(s, ms, i), ms[i])
    ensures HasAdmin(StateAt(s, ms, n).table)
  {
    if n > 0 {
      SparedUpTo(s, ms, n - 1);
      KeyedThroughout(s, ms[..n - 1]);
      NextState(s, ms, n - 1);
      MoveKeepsAdminIff(StateAt(s, ms, n - 1), ms[n - 1]);
    }
  }

  /** Over a whole interleaving: there is an admin in every state if and only if no step
      strips the last one. */
  lemma RunKeepsAdminIff(s: System, ms: seq<Move>)
    requires Keyed(s.table) && HasAdmin(s.table)
    ensures (forall n :: 0 <= n <= |ms| ==> HasAdmin(StateAt(s, ms, n).table))
            <==> (forall i :: 0 <= i < |ms| ==> Spares(StateAt(s, ms, i), ms[i]))
  {
    if forall n :: 0 <= n <= |ms| ==> HasAdmin(StateAt(s, ms, n).table) {
      forall i | 0 <= i < |ms|
        ensures Spares(StateAt(s, ms, i), ms[i])
      {
        KeyedThroughout(s, ms[..i]);
        NextState(s, ms, i);
        MoveKeepsAdminIff(StateAt(s, ms, i), ms[i]);
        assert HasAdmin(StateAt(s, ms, i).table) && HasAdmin(StateAt(s, ms, i + 1).table);
      }
    }
    if forall i :: 0 <= i < |ms| ==> Spares(StateAt(s, ms, i), ms[i]) {
      forall n | 0 <= n <= |ms|
        ensures HasAdmin(StateAt(s, ms, n).table)
      {
        SparedUpTo(s, ms, n);
      }
    }
  }

  /** The caller a request acts for still has the role it was authenticated with. */
  ghost predicate StillCurrent(s: System, m: Move) {
    m.Handle? && m.thread in s.callers && s.callers[m.thread].role == ADMIN ==>
        IsAdmin(s.table, s.callers[m.thread].email)
  }

  lemma CurrentSpares(s: System, m: Move)
    requires HasAdmin(s.table) && StillCurrent(s, m)
    ensures Spares(s, m)
  {
    if m.Handle? && m.thread in s.callers {
      var caller := s.callers[m.thread];
      var k :| IsAdmin(s.table, k);
      assert !Removes(caller, m.req, if caller.role == ADMIN then caller.email else k);
    }
  }

  /** Overlap does no harm as long as every admin who acts is still an admin under the same
      key at that moment. */
  lemma {:induction false} CurrentCallersKeepAdmin(s: System, ms: seq<Move>, n: nat)
    requires n <= |ms| && Keyed(s.table) && HasAdmin(s.table)
    requires forall i :: 0 <= i < n ==> StillCurrent(StateAt(s, ms, i), ms[i])
    ensures HasAdmin(StateAt(s, ms, n).table)
  {
    if n > 0 {
      CurrentCallersKeepAdmin(s, ms, n - 1);
      KeyedThroughout(s, ms[..n - 1]);
      NextState(s, ms, n - 1);
      CurrentSpares(StateAt(s, ms, n - 1), ms[n - 1]);
      MoveKeepsAdminIff(StateAt(s, ms, n - 1), ms[n - 1]);
    }
  }

  lemma TwoMoves(s: System, a: Move, b: Move)
    ensures Exec(s, [a, b]) == Go(Go(s, a), b)
  {
    assert [a, b][..1] == [a] && [a][..0] == [];
    assert Exec(s, [a]) == Go(s, a);
  }

  /** A request that is handled right after it entered is a served request. */
  lemma SerialIsInterleaving(t: Table, thread: nat, userId: string, req: Request)
    ensures Exec(System(t, map[]), [Enter(thread, userId), Handle(thread, req)]).table == Serve(t, userId, req)
  {
    TwoMoves(System(t, map[]), Enter(thread, userId), Handle(thread, req));
  }

  // ---------------------------------------------------------------- two ways to lose the last admin

  lemma FourMoves(s: System, a: Move, b: Move, c: Move, d: Move)
    ensures Exec(s, [a, b, c, d]) == Go(Go(Go(Go(s, a), b), c), d)
  {
    assert [a, b, c, d][..3] == [a, b, c] && [a, b, c][..2] == [a, b];
    TwoMoves(s, a, b);
  }

  lemma MutualDeletes(t: Table, a: string, b: string)
    requires Keyed(t) && a != b && a != "" && b != ""
    requires forall k :: IsAdmin(t, k) <==> k == a || k == b
    ensures !HasAdmin(Act(Act(t, Caller(a, ADMIN), DeleteUser(b)), Caller(b, ADMIN), DeleteUser(a)))
  {
    assert IsAdmin(t, a) && IsAdmin(t, b);
    KeyIsFolded(t, a);
    KeyIsFolded(t, b);
    var one := Act(t, Caller(a, ADMIN), DeleteUser(b));
    forall k | IsAdmin(Act(one, Caller(b, ADMIN), DeleteUser(a)), k)
      ensures false
    {
      DeletedAdmins(t, Caller(a, ADMIN), b, k);
      DeletedAdmins(one, Caller(b, ADMIN), a, k);
    }
  }

  /** Two admins who are both authenticated before either acts can delete each other. */
  lemma OverlappingDeletes(t: Table, a: string, b: string)
    requires Keyed(t) && a != b && a != "" && b != ""
    requires forall k :: IsAdmin(t, k) <==> k == a || k == b
    ensures var ms := [Enter(0, a), Enter(1, b), Handle(0, DeleteUser(b)), Handle(1, DeleteUser(a))];
            !HasAdmin(Exec(System(t, map[]), ms).table)
  {
    AdminEnters(t, a);
    AdminEnters(t, b);
    FourMoves(System(t, map[]), Enter(0, a), Enter(1, b), Handle(0, DeleteUser(b)), Handle(1, DeleteUser(a)));
    MutualDeletes(t, a, b);
  }

  lemma AdminEnters(t: Table, a: string)
    requires Keyed(t) && IsAdmin(t, a)
    ensures Authenticate(t, a) == Some(Caller(a, ADMIN))
  {
    KeyIsFolded(t, a);
  }

  /** The only admin of a table, and a new address the store accepts for a rename. */
  ghost predicate SoleAdmin(t: Table, a: string) {
    Keyed(t) && a != "" && forall k :: IsAdmin(t, k) <==> k == a
  }

  predicate FreeAddress(t: Table, p: Profile) {
    Folded(p.newEmail) !in t && LooksLikeEmail(Folded(p.newEmail)) && ProfileError(TrimmedProfile(p)) == None
  }

  lemma RenameActs(t: Table, a: string, p: Profile)
    requires SoleAdmin(t, a) && FreeAddress(t, p)
    ensures var c := ProfileSet(t, a, TrimmedProfile(p));
            Act(t, Caller(a, ADMIN), EditProfile(p)) == c.table && c.error == None
    ensures NormalizeEmail(a) == a && NewEmail(a, TrimmedProfile(p)) == Folded(p.newEmail) != ""
  {
    assert IsAdmin(t, a);
    KeyIsFolded(t, a);
    FoldedIsKey(p.newEmail);
    EmptyIsNoEmail();
  }

  lemma EmptyIsNoEmail()
    ensures !LooksLikeEmail("")
  {
    assert Split("", '@') == [""];
  }

  lemma StaleDelete(t: Table, a: string, p: Profile)
    requires SoleAdmin(t, a) && FreeAddress(t, p)
    ensures var renamed := Act(t, Caller(a, ADMIN), EditProfile(p));
            !HasAdmin(Act(renamed, Caller(a, ADMIN), DeleteUser(Folded(p.newEmail))))
  {
    var b := Folded(p.newEmail);
    var renamed := Act(t, Caller(a, ADMIN), EditProfile(p));
    RenameActs(t, a, p);
    RenamedAdmins(t, a, TrimmedProfile(p));
    FoldedFolded(p.newEmail);
    assert a != b by { assert IsAdmin(t, a); }
    forall k | IsAdmin(Act(renamed, Caller(a, ADMIN), DeleteUser(b)), k)
      ensures false
    {
      DeletedAdmins(renamed, Caller(a, ADMIN), b, k);
    }
  }

  /** One admin is enough: a request that was authenticated before the admin's own rename
      passes the self-delete guard against the new address. */
  lemma StaleRename(t: Table, a: string, p: Profile)
    requires SoleAdmin(t, a) && FreeAddress(t, p)
    ensures var b := Folded(p.newEmail);
            var ms := [Enter(0, a), Enter(1, a), Handle(0, EditProfile(p)), Handle(1, DeleteUser(b))];
            !HasAdmin(Exec(System(t, map[]), ms).table)
  {
    var b := Folded(p.newEmail);
    assert IsAdmin(t, a);
    KeyIsFolded(t, a);
    FourMoves(System(t, map[]), Enter(0, a), Enter(1, a), Handle(0, EditProfile(p)), Handle(1, DeleteUser(b)));
    StaleDelete(t, a, p);
  }

  lemma RenamedAdmins(t: Table, a: string, p: Profile)
    requires Keyed(t) && NormalizeEmail(a) == a && forall k :: IsAdmin(t, k) <==> k == a
    requires ProfileSet(t, a, p).error == None
    ensures forall k :: IsAdmin(ProfileSet(t, a, p).table, k) ==> k == NewEmail(a, p)
  {
    RenameMovesOne(t, a, p);
    forall k | IsAdmin(ProfileSet(t, a, p).table, k) && k != NewEmail(a, p)
      ensures false
    {
      assert IsAdmin(t, k);
    }
  }

  lemma FoldedFolded(s: string)
    ensures Folded(Folded(s)) == Folded(s)
  {
    NormalizationsAgree(s);
    NormalizationsAgree(Folded(s));
    NormalizeIdempotent(s);
  }
}
