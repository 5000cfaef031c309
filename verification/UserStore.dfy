/** The user store as it is: a map of shared user objects, changed in place and saved. */
module UserStore {
  import opened Common
  import opened Text
  import opened Accounts
  import opened LoadPass

  const DEFAULT_ADMIN := "demo@unyport.app"

  /** A user object; its fields are kept together as one account value. */
  class User {
    var account: Account

    constructor (a: Account)
      ensures account == a
    {
      account := a;
    }
  }

  datatype Outcome = Done | Rejected(error: Error) | Crashed

  /** What the load pass meets: no file, one that cannot be read, one whose decoding fails and
      leaves some of its entries behind, the document "null", or a table whose entries may be
      null. */
  datatype File =
    | Missing | Unreadable | Broken(partial: Table) | NullDocument | Stored(entries: map<string, Option<Account>>)

  predicate NoNulls(entries: map<string, Option<Account>>) {
    forall k :: k in entries ==> entries[k].Some?
  }

  function TableOf(entries: map<string, Option<Account>>): (t: Table)
    requires NoNulls(entries)
    ensures t.Keys == entries.Keys
  {
    map k | k in entries :: entries[k].value
  }

  /** What an operation reports, given the specified change and whether the file could be
      written. */
  function Report(c: Change, ioOk: bool): Outcome {
    if c.error.Some? then Rejected(c.error.value) else if ioOk then Done else Rejected(SaveFailed)
  }

  function Finished(t: Table, k: string, n: string, p: Profile): Table
    requires k in t
  {
    var u := Renamed(t[k], k, n);
    (t - {k})[n := u.(avatar := p.avatar, photoUrl := p.photoUrl, sshKey := p.sshKey)]
  }

  lemma ThreeSteps(t: Table, k: string, n: string, p: Profile)
    requires k in t
    ensures Finished(t[k := t[k].(displayName := p.displayName)], k, n, p) == (t - {k})[n := Edited(t[k], k, n, p)]
  {
    assert t[k := t[k].(displayName := p.displayName)] - {k} == t - {k};
  }

  class UserStore {
    var users: map<string, User>
    var disk: Table

    /** Each user object sits under exactly one key.  That the key is the user's normalised
        email is a property of the table (Accounts.KeyedOverRuns, LoadPass.RehashIsKeyed). */
    ghost predicate Unshared()
      reads this
    {
      forall i, j :: i in users && j in users && i != j ==> users[i] != users[j]
    }

    function Image(): (t: Table)
      reads this, users.Values
      ensures t.Keys == users.Keys
    {
      map k | k in users :: users[k].account
    }

    constructor ()
      ensures Unshared() && Image() == map[]
    {
      users, disk := map[], map[];
    }

    // ---------------------------------------------------------------- single steps

    method Save(ioOk: bool) returns (outcome: Outcome)
      modifies this`disk
      ensures outcome == if ioOk then Done else Rejected(SaveFailed)
      ensures disk == if ioOk then Image() else old(disk)
    {
      if !ioOk {
        return Rejected(SaveFailed);
      }
      disk := Image();
      outcome := Done;
    }

    /** users[k] = u, for an object the map does not hold. */
    method Insert(k: string, u: User)
      requires Unshared() && u !in users.Values
      modifies this`users
      ensures Unshared() && users == old(users)[k := u] && users.Values <= old(users.Values) + {u}
      ensures Image() == old(Image())[k := u.account]
    {
      users := users[k := u];
    }

    method Remove(k: string)
      requires Unshared()
      modifies this`users
      ensures Unshared() && users == old(users) - {k} && users.Values <= old(users.Values)
      ensures k in old(users) ==> old(users)[k] !in users.Values
      ensures Image() == old(Image()) - {k}
    {
      users := users - {k};
    }

    /** Changing one user object changes one entry of the table. */
    method Update(k: string, a: Account)
      requires Unshared() && k in users
      modifies users[k]
      ensures users[k].account == a
      ensures Image() == old(Image())[k := a]
    {
      users[k].account := a;
    }

    // ---------------------------------------------------------------- operations

    method Find(email: string) returns (u: User?)
      ensures u == null <==> NormalizeEmail(email) !in Image()
      ensures u != null ==> NormalizeEmail(email) in users && u == users[NormalizeEmail(email)]
    {
      var k := NormalizeEmail(email);
      u := if k in users then users[k] else null;
    }

    /** The caller hands over a user object of its own. */
    method Add(u: User, hashed: Option<string>, ioOk: bool) returns (outcome: Outcome)
      requires Unshared() && u !in users.Values
      modifies this`users, this`disk, u
      ensures Unshared() && users.Values <= old(users.Values) + {u}
      ensures Image() == Added(old(Image()), old(u.account), hashed).table
      ensures outcome == Report(Added(old(Image()), old(u.account), hashed), ioOk)
      ensures disk == if outcome == Done then Image() else old(disk)
    {
      u.account := u.account.(email := NormalizeEmail(u.account.email));
      if u.account.email == "" {
        return Rejected(EmailRequired);
      }
      if u.account.id == "" {
        u.account := u.account.(id := u.account.email);
      }
      if u.account.email in users {
        return Rejected(AlreadyExists);
      }
      outcome := Enroll(u, hashed, ioOk);
    }

    method Enroll(u: User, hashed: Option<string>, ioOk: bool) returns (outcome: Outcome)
      requires Unshared() && u !in users.Values
      modifies this`users, this`disk, u
      ensures Unshared() && users.Values <= old(users.Values) + {u}
      ensures var password := old(u.account.password);
              if password != "" && |password| < 8 then outcome == Rejected(PasswordTooShort) && Image() == old(Image())
              else if password != "" && hashed.None? then outcome == Rejected(HashFailed) && Image() == old(Image())
              else
                && outcome == (if ioOk then Done else Rejected(SaveFailed))
                && Image() == old(Image())[old(u.account.email) :=
                     if password != "" then old(u.account).(password := hashed.value) else old(u.account)]
      ensures disk == if outcome == Done then Image() else old(disk)
    {
      if u.account.password != "" {
        if |u.account.password| < 8 {
          return Rejected(PasswordTooShort);
        }
        if hashed.None? {
          return Rejected(HashFailed);
        }
        u.account := u.account.(password := hashed.value);
      }
      Insert(u.account.email, u);
      outcome := Save(ioOk);
    }

    method Delete(email: string, ioOk: bool) returns (outcome: Outcome)
      requires Unshared()
      modifies this`users, this`disk
      ensures Unshared() && users.Values <= old(users.Values)
      ensures Image() == Deleted(old(Image()), email).table && outcome == Report(Deleted(old(Image()), email), ioOk)
      ensures disk == if outcome == Done then Image() else old(disk)
    {
      var k := NormalizeEmail(email);
      if k !in users {
        return Rejected(NotFound);
      }
      Remove(k);
      outcome := Save(ioOk);
    }

    method SetRole(email: string, role: string, ioOk: bool) returns (outcome: Outcome)
      requires Unshared()
      modifies this`disk, users.Values
      ensures Unshared()
      ensures Image() == RoleSet(old(Image()), email, role).table
                && outcome == Report(RoleSet(old(Image()), email, role), ioOk)
      ensures disk == if outcome == Done then Image() else old(disk)
    {
      var r := Lower(TrimSpace(role));
      if !ValidRole(r) {
        return Rejected(InvalidRole);
      }
      var k := NormalizeEmail(email);
      if k !in users {
        return Rejected(NotFound);
      }
      Update(k, users[k].account.(roles := [r]));
      outcome := Save(ioOk);
    }

    method UpdatePassword(email: string, newPassword: string, matches: bool, hashed: Option<string>, ioOk: bool)
      returns (outcome: Outcome)
      requires Unshared()
      modifies this`disk, users.Values
      ensures Unshared()
      ensures Image() == PasswordSet(old(Image()), email, newPassword, matches, hashed).table
      ensures outcome == Report(PasswordSet(old(Image()), email, newPassword, matches, hashed), ioOk)
      ensures disk == if outcome == Done then Image() else old(disk)
    {
      if |newPassword| < 8 {
        return Rejected(PasswordTooShort);
      }
      var k := NormalizeEmail(email);
      if k !in users {
        return Rejected(NotFound);
      }
      if !matches {
        return Rejected(WrongPassword);
      }
      if hashed.None? {
        return Rejected(HashFailed);
      }
      Update(k, users[k].account.(password := hashed.value));
      outcome := Save(ioOk);
    }

    method UpdateProfile(email: string, p: Profile, ioOk: bool) returns (outcome: Outcome, emailChanged: bool)
      requires Unshared()
      modifies this`users, this`disk, users.Values
      ensures Unshared() && users.Values <= old(users.Values)
      ensures Image() == ProfileSet(old(Image()), email, p).table
                && outcome == Report(ProfileSet(old(Image()), email, p), ioOk)
      ensures outcome == Done ==> emailChanged == (NewEmail(email, p) != NormalizeEmail(email))
      ensures disk == if outcome == Done then Image() else old(disk)
    {
      emailChanged := false;
      var k, n := NormalizeEmail(email), NormalizeEmail(p.newEmail);
      if n == "" {
        n := k;
      }
      if !LooksLikeEmail(n) {
        return Rejected(EmailInvalid), false;
      }
      if k !in users {
        return Rejected(NotFound), false;
      }
      emailChanged := n != k;
      if emailChanged && n in users {
        return Rejected(EmailTaken), false;
      }
      var error := Edit(k, n, p);
      if error.Some? {
        return Rejected(error.value), false;
      }
      outcome := Save(ioOk);
    }

    /** The changes to the user object, in the order of the code. */
    method Edit(k: string, n: string, p: Profile) returns (error: Option<Error>)
      requires Unshared() && k in users && (n == k || n !in users)
      modifies this`users, users.Values
      ensures Unshared() && users.Values <= old(users.Values) && error == ProfileError(p)
      ensures Image() == if error.Some? then old(Image())[k := old(Image())[k].(displayName := p.displayName)]
                         else (old(Image()) - {k})[n := Edited(old(Image())[k], k, n, p)]
    {
      ghost var before := Image();
      Update(k, users[k].account.(displayName := p.displayName));
      error := CheckPictures(p);
      if error.Some? {
        return;
      }
      Finish(k, n, p);
      ThreeSteps(before, k, n, p);
    }

    /** What follows when the pictures are accepted. */
    method Finish(k: string, n: string, p: Profile)
      requires Unshared() && k in users && (n == k || n !in users)
      modifies this`users, users.Values
      ensures Unshared() && users.Values <= old(users.Values)
      ensures Image() == Finished(old(Image()), k, n, p)
    {
      Relocate(k, n);
      SetPictures(n, p);
    }

    /** The key follows the address when it changes. */
    method Relocate(k: string, n: string)
      requires Unshared() && k in users && (n == k || n !in users)
      modifies this`users, users.Values
      ensures Unshared() && n in users && users.Values <= old(users.Values)
      ensures Image() == (old(Image()) - {k})[n := Renamed(old(Image())[k], k, n)]
    {
      ghost var before := Image();
      if n != k {
        Move(k, n);
      } else {
        assert (before - {k})[k := before[k]] == before;
      }
    }

    method SetPictures(n: string, p: Profile)
      requires Unshared() && n in users
      modifies users[n]
      ensures Unshared()
      ensures Image() == old(Image())[n :=
                           old(Image())[n].(avatar := p.avatar, photoUrl := p.photoUrl, sshKey := p.sshKey)]
    {
      Update(n, users[n].account.(avatar := p.avatar, photoUrl := p.photoUrl, sshKey := p.sshKey));
    }

    method CheckPictures(p: Profile) returns (error: Option<Error>)
      ensures error == ProfileError(p)
    {
      if |p.avatar| > 2 {
        return Some(AvatarTooLong);
      }
      if p.photoUrl != "" {
        if |p.photoUrl| > MAX_PHOTO {
          return Some(PhotoTooLarge);
        }
        if !AcceptedPhoto(p.photoUrl) {
          return Some(PhotoScheme);
        }
      }
      error := None;
    }

    /** The rename: the same object under another key. */
    method Move(k: string, n: string)
      requires Unshared() && k in users && n !in users
      modifies this`users, users[k]
      ensures Unshared() && n in users && users.Values <= old(users.Values)
      ensures Image() == (old(Image()) - {k})[n := old(Image())[k].(email := n, id := n)]
    {
      var u := users[k];
      Remove(k);
      u.account := u.account.(email := n, id := n);
      Insert(n, u);
    }

    // ---------------------------------------------------------------- loading

    /** Decoding the file creates one object per entry. */
    method Decode(file: Table)
      requires users == map[]
      modifies this`users
      ensures Unshared() && fresh(users.Values) && Image() == file
    {
      var pending := file.Keys;
      while pending != {}
        invariant pending <= file.Keys && users.Keys == file.Keys - pending
        invariant Unshared() && fresh(users.Values)
        invariant Image() == map k | k in file && k !in pending :: file[k]
        decreases |pending|
      {
        var k :| k in pending;
        var u := new User(file[k]);
        Insert(k, u);
        pending := pending - {k};
      }
    }

    /** One turn of the rehash. */
    method Refile(k: string)
      requires Unshared()
      modifies this`users, users.Values
      ensures Unshared() && users.Values <= old(users.Values)
      ensures Image() == Visit(old(Image()), k)
    {
      if k !in users {
        return;
      }
      var account := Clean(k, users[k].account);
      Update(k, account);
      Rekey(k, account.email);
    }

    /** The object under k goes under n, over whatever stands there. */
    method Rekey(k: string, n: string)
      requires Unshared() && k in users
      modifies this`users
      ensures Unshared() && users.Values <= old(users.Values)
      ensures Image() == (old(Image()) - {k})[n := old(Image())[k]]
    {
      var user := users[k];
      if n != k {
        Remove(k);
        Insert(n, user);
      }
    }

    /** What a turn changes in the user object. */
    method Clean(k: string, u: Account) returns (account: Account)
      ensures account == Cleaned(k, u) && account.email == Target(k, u)
    {
      var normalized := NormalizeEmail(u.email);
      if normalized == "" {
        normalized := NormalizeEmail(k);
      }
      account := u.(email := normalized);
      if account.id == "" {
        account := account.(id := normalized);
      }
      if account.roles == [] || !ValidRole(RoleOf(account.roles)) {
        account := account.(roles := [VIEWER]);
      }
    }

    /** The rehash deletes and inserts while the keys come up in some order; entries it
        inserted may come up again, and are then left alone (LoadPass.Revisit). */
    method Normalize() returns (ghost visits: seq<string>)
      requires Unshared()
      modifies this`users, users.Values
      ensures Unshared() && users.Values <= old(users.Values)
      ensures Schedule(old(Image()), visits) && Image() == Rehash(old(Image()), visits)
    {
      ghost var file := Image();
      var pending := users.Keys;
      visits := [];
      while pending != {}
        invariant Unshared() && users.Values <= old(users.Values)
        invariant forall k :: k in file && k !in pending ==> k in visits
        invariant Image() == Rehash(file, visits)
        decreases |pending|
      {
        var k :| k in pending;
        pending := pending - {k};
        assert (visits + [k])[..|visits|] == visits;
        visits := visits + [k];
        Refile(k);
      }
    }

    /** A missing or empty file gives the default administrator, one that cannot be read or
        decoded fails; the document "null" leaves no map to put the administrator into, and a
        null entry is dereferenced, so both end the process.  Any other file is decoded and
        normalised, and not written back. */
    method Load(file: File, hashed: Option<string>, ioOk: bool) returns (outcome: Outcome)
      requires users == map[]
      modifies this
      ensures Unshared() && fresh(users.Values)
      ensures outcome == Done ==> Keyed(Image())
      ensures file.Unreadable? ==> outcome == Rejected(LoadFailed) && Image() == map[] && disk == old(disk)
      ensures file.Broken? ==> outcome == Rejected(LoadFailed) && Image() == file.partial && disk == old(disk)
      ensures file.NullDocument? ==> outcome == (if hashed.None? then Rejected(HashFailed) else Crashed)
      ensures file.Stored? && !NoNulls(file.entries) ==> outcome == Crashed
      ensures file.Missing? || file == Stored(map[]) ==>
                if hashed.None? then outcome == Rejected(HashFailed) && Image() == map[]
                else
                  && outcome == (if ioOk then Done else Rejected(SaveFailed))
                  && IsAdmin(Image(), DEFAULT_ADMIN) && Image().Keys == {DEFAULT_ADMIN}
      ensures file.Stored? && file.entries != map[] && NoNulls(file.entries) ==>
                outcome == Done && disk == old(disk) &&
                exists visits :: Schedule(TableOf(file.entries), visits)
                    && Image() == Rehash(TableOf(file.entries), visits)
    {
      match file {
        case Unreadable =>
          outcome := Rejected(LoadFailed);
        case Broken(partial) =>
          Decode(partial);
          outcome := Rejected(LoadFailed);
        case Missing =>
          outcome := SeedAdmin(hashed, ioOk);
        case NullDocument =>
          outcome := if hashed.None? then Rejected(HashFailed) else Crashed;
        case Stored(entries) =>
          if entries == map[] {
            outcome := SeedAdmin(hashed, ioOk);
          } else if !NoNulls(entries) {
            outcome := Crashed;
          } else {
            Decode(TableOf(entries));
            ghost var visits := Normalize();
            RehashIsKeyed(TableOf(entries), visits);
            outcome := Done;
          }
      }
    }

    method SeedAdmin(hashed: Option<string>, ioOk: bool) returns (outcome: Outcome)
      requires users == map[]
      modifies this
      ensures Unshared() && Keyed(Image()) && fresh(users.Values)
      ensures if hashed.None? then outcome == Rejected(HashFailed) && Image() == map[]
              else
                && outcome == (if ioOk then Done else Rejected(SaveFailed))
                && IsAdmin(Image(), DEFAULT_ADMIN) && Image().Keys == {DEFAULT_ADMIN}
      ensures disk == if outcome == Done then Image() else old(disk)
    {
      if hashed.None? {
        return Rejected(HashFailed);
      }
      DefaultAdminIsNormal();
      var admin := new User(Account(DEFAULT_ADMIN, DEFAULT_ADMIN, hashed.value, [ADMIN], "UnyPort Admin", "", "", ""));
      Insert(DEFAULT_ADMIN, admin);
      outcome := Save(ioOk);
    }
  }

  lemma DefaultAdminIsNormal()
    ensures NormalizeEmail(DEFAULT_ADMIN) == DEFAULT_ADMIN && RoleOf([ADMIN]) == ADMIN
  {
  }
}
