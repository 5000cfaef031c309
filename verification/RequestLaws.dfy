/** When a request goes through, said of its caller and its input, and what it leaves behind. */
module RequestLaws {
  import opened Common
  import opened Text
  import opened TextMeaning
  import opened Accounts
  import opened AccountLaws
  import opened AdminRuns
  import opened LoadPass
  import opened UserStore
  import opened AdminHandlers

  lemma FoldedIsNormal(s: string)
    ensures Folded(s) == NormalizeEmail(s) && NormalizeEmail(Folded(s)) == NormalizeEmail(s)
  {
    NormalizationsAgree(s);
  }

  /** Creating needs an admin, a new address and a password of 8 characters that can be
      hashed. */
  lemma CreateIff(t: Table, userId: string, email: string, password: string, role: string, hashed: Option<string>)
    ensures var me, k := NormalizeEmail(userId), NormalizeEmail(email);
            Succeeds(t, userId, CreateUser(email, password, role, hashed)) <==>
              && me in t && RoleOf(t[me].roles) == "admin"
              && k != "" && k !in t && |password| >= 8 && hashed.Some?
  {
    FoldedIsNormal(email);
    if Operate(Caller("", "admin"), CreateUser(email, password, role, hashed)).Some? {
      AddIff(t, NewAccount(Folded(email), password, Folded(role)), hashed);
    }
  }

  /** The new account has the hashed password and the role asked for, or viewer if that is no
      role; nobody else changes. */
  lemma CreatedUser(t: Table, userId: string, email: string, password: string, role: string, hashed: Option<string>)
    requires Succeeds(t, userId, CreateUser(email, password, role, hashed))
    ensures var r, k, asked := Serve(t, userId, CreateUser(email, password, role, hashed)), NormalizeEmail(email),
                Lower(TrimSpace(role));
            && r.Keys == t.Keys + {k} && (forall other :: other in t ==> r[other] == t[other])
            && hashed.Some?
            && r[k] == Account(k, k, hashed.value,
                 [if asked == "admin" || asked == "operator" then asked else "viewer"], "", "", "", "")
  {
    FoldedIsNormal(email);
    LowerTrimCommute(role);
    AddIff(t, NewAccount(Folded(email), password, Folded(role)), hashed);
  }

  /** Deleting needs an admin and somebody else's existing account, and removes just that. */
  lemma DeleteUserIff(t: Table, userId: string, path: string)
    ensures var me, k, r := NormalizeEmail(userId), NormalizeEmail(path), Serve(t, userId, DeleteUser(path));
            && (Succeeds(t, userId, DeleteUser(path)) <==>
                  me in t && RoleOf(t[me].roles) == "admin" && k != "" && k != t[me].email && k in t)
            && r == if Succeeds(t, userId, DeleteUser(path)) then t - {k} else t
  {
    FoldedIsNormal(path);
    DeleteIff(t, Folded(path));
  }

  lemma SetFoldedRole(t: Table, path: string, role: string)
    ensures var c, k, r := Apply(t, SetRole(Folded(path), Folded(role))), NormalizeEmail(path), Lower(TrimSpace(role));
            && Folded(path) == k && Folded(role) == r
            && (c.error == None <==> ValidRole(r) && k in t)
            && c.table == if c.error == None then t[k := t[k].(roles := [r])] else t
  {
    FoldedIsNormal(path);
    FoldedIsNormal(role);
  }

  /** Changing a role needs an admin, an existing account and one of the three roles, and an
      admin cannot take the own one away; the role becomes the only one. */
  lemma ChangeRoleIff(t: Table, userId: string, path: string, role: string)
    ensures var me, k, r := NormalizeEmail(userId), NormalizeEmail(path), Lower(TrimSpace(role));
            && (Succeeds(t, userId, ChangeRole(path, role)) <==>
                  && me in t && RoleOf(t[me].roles) == "admin" && k != "" && k in t
                  && (r == "admin" || r == "operator" || r == "viewer")
                  && (k == t[me].email ==> r == "admin"))
            && Serve(t, userId, ChangeRole(path, role)) ==
                 if Succeeds(t, userId, ChangeRole(path, role)) then t[k := t[k].(roles := [r])] else t
  {
    SetFoldedRole(t, path, role);
  }

  /** Changing the own password needs an operator or an admin, the old password and a new one
      of 8 characters; nothing but that password changes. */
  lemma ChangePasswordIff(t: Table, userId: string, newPassword: string, matches: bool, hashed: Option<string>)
    requires Keyed(t)
    ensures var me, req := NormalizeEmail(userId), ChangePassword(newPassword, matches, hashed);
            && (Succeeds(t, userId, req) <==>
                  && me in t && me != "" && RoleOf(t[me].roles) != "viewer"
                  && |newPassword| >= 8 && matches && hashed.Some?)
            && (Succeeds(t, userId, req) ==> Serve(t, userId, req) == t[me := t[me].(password := hashed.value)])
            && (!Succeeds(t, userId, req) ==> Serve(t, userId, req) == t)
  {
    var me := NormalizeEmail(userId);
    if me in t {
      assert t[me].email == me && NormalizeEmail(me) == me;
      SetPasswordIff(t, me, newPassword, matches, hashed);
    }
  }

  /** Editing the own profile needs a role above viewer, a plausible address that is free or
      the own one, and good pictures, all of it trimmed first. */
  lemma EditProfileIff(t: Table, userId: string, p: Profile)
    requires Keyed(t)
    ensures var me, q := NormalizeEmail(userId), TrimmedProfile(p);
            Succeeds(t, userId, EditProfile(p)) <==>
              && me in t && me != "" && RoleOf(t[me].roles) != "viewer"
              && Plausible(KeyAfter(me, q)) && (KeyAfter(me, q) == me || KeyAfter(me, q) !in t)
              && GoodPictures(q)
    ensures var q := TrimmedProfile(p);
            && q.newEmail == NormalizeEmail(p.newEmail)
            && q.displayName == TrimSpace(p.displayName) && q.avatar == TrimSpace(p.avatar)
            && q.photoUrl == TrimSpace(p.photoUrl) && q.sshKey == TrimSpace(p.sshKey)
  {
    var me := NormalizeEmail(userId);
    FoldedIsNormal(p.newEmail);
    if me in t {
      SetProfileIff(t, me, TrimmedProfile(p));
    }
  }

  /** An edit gives the caller another address, and so another cookie, exactly when a new one
      is given that is not the old one up to case and blanks. */
  lemma MovesIff(me: string, p: Profile)
    ensures Moves(me, p) <==> !Blanks(p.newEmail) && NormalizeEmail(p.newEmail) != NormalizeEmail(me)
  {
    FoldedIsNormal(p.newEmail);
    BlankKeyIff(p.newEmail);
  }

  /** An unknown user who signs in becomes a viewer exactly when accounts are created
      automatically; everything else stays as it is. */
  lemma SignInMeans(t: Table, email: string, autoCreate: bool)
    ensures var k := NormalizeEmail(email);
            SignIn(t, email, autoCreate) ==
              if k != "" && k !in t && autoCreate then t[k := Account(k, k, "", ["viewer"], "", "", "", "")] else t
  {
    NormalizeIdempotent(email);
  }

  lemma ReportIff(c: Change, ioOk: bool)
    ensures Report(c, ioOk) == Done <==> c.error == None && ioOk
    ensures c.error == None && !ioOk ==> Report(c, ioOk) == Rejected(SaveFailed)
    ensures c.error.Some? ==> Report(c, ioOk) == Rejected(c.error.value)
  {
  }

  /** What the caller is told: a refusal by a guard, success, or a failure of the store,
      whose file must have been written. */
  lemma AnswerMeans(t: Table, op: Option<Operation>, ioOk: bool, refused: Status, done: Status, failed: Status)
    ensures op.None? ==> Answer(t, op, ioOk, refused, done, failed) == refused
    ensures op.Some? && Apply(t, op.value).error == None && ioOk ==> Answer(t, op, ioOk, refused, done, failed) == done
    ensures op.Some? && (Apply(t, op.value).error != None || !ioOk) ==>
              Answer(t, op, ioOk, refused, done, failed) == failed
  {
    if op.Some? {
      ReportIff(Apply(t, op.value), ioOk);
    }
  }

  // ---------------------------------------------------------------- loading

  /** What the load pass makes of a file whose entries are separate: every user is filed under
      the own address, or under the old key if that is blank; a missing id and missing roles
      are filled in, and everything else stays. */
  lemma LoadedUser(t: Table, visits: seq<string>, k: string)
    requires Separate(t) && Schedule(t, visits) && k in t
    ensures var r, u, e := Rehash(t, visits), t[k],
                NormalizeEmail(if Blanks(t[k].email) then k else t[k].email);
            && e in r
            && r[e] == u.(email := e, id := if u.id == "" then e else u.id,
                          roles := if u.roles == [] then ["viewer"] else u.roles)
  {
    SeparateIsKept(t, visits, visits);
    BlankKeyIff(t[k].email);
  }
}
