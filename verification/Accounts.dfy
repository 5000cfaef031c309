/** Users as values: what every store operation does to the table of accounts. */
module Accounts {
  import opened Common
  import opened Text

  /** Creation time and the unused two-factor flag are left out. */
  datatype Account = Account(
    id: string, email: string, password: string, roles: seq<string>,
    displayName: string, avatar: string, photoUrl: string, sshKey: string)

  type Table = map<string, Account>

  datatype Error =
    | EmailRequired | AlreadyExists | PasswordTooShort | HashFailed | NotFound | EmailInvalid | EmailTaken
    | AvatarTooLong | PhotoTooLarge | PhotoScheme | InvalidRole | WrongPassword | SaveFailed | LoadFailed

  /** The table after an operation, and the error it stopped at. */
  datatype Change = Change(table: Table, error: Option<Error>)

  const ADMIN := "admin"
  const OPERATOR := "operator"
  const VIEWER := "viewer"
  const MAX_PHOTO: nat := 2 * 1024 * 1024

  predicate ValidRole(role: string) {
    role == ADMIN || role == OPERATOR || role == VIEWER
  }

  /** The main role: the first one, or viewer. */
  function RoleOf(roles: seq<string>): (r: string)
    ensures ValidRole(r)
    ensures r == ADMIN <==> roles != [] && Lower(TrimSpace(roles[0])) == ADMIN
    ensures r == OPERATOR <==> roles != [] && Lower(TrimSpace(roles[0])) == OPERATOR
  {
    if roles == [] then VIEWER
    else
      var role := Lower(TrimSpace(roles[0]));
      if ValidRole(role) then role else VIEWER
  }

  function NormalizeEmail(email: string): string {
    Lower(TrimSpace(email))
  }

  /** One "@", something before it, a dot after it. */
  predicate LooksLikeEmail(email: string) {
    var parts := Split(email, '@');
    |parts| == 2 && parts[0] != "" && '.' in parts[1]
  }

  lemma NormalizeIdempotent(email: string)
    ensures NormalizeEmail(NormalizeEmail(email)) == NormalizeEmail(email)
  {
    LowerTrimCommute(TrimSpace(email));
    TrimIdempotent(email, IsSpace);
    LowerIdempotent(TrimSpace(email));
  }

  /** The handlers lower first and trim second; the store does it the other way round. */
  lemma NormalizationsAgree(email: string)
    ensures TrimSpace(Lower(email)) == NormalizeEmail(email)
    ensures NormalizeEmail(TrimSpace(Lower(email))) == NormalizeEmail(email)
  {
    LowerTrimCommute(email);
    NormalizeIdempotent(email);
  }

  /** Every account is filed under its own normalised email. */
  ghost predicate Keyed(t: Table) {
    forall k :: k in t ==> t[k].email == k && NormalizeEmail(k) == k && (t[k].id == "" ==> k == "")
  }

  ghost predicate IsAdmin(t: Table, k: string) {
    k in t && RoleOf(t[k].roles) == ADMIN
  }

  ghost predicate HasAdmin(t: Table) {
    exists k :: IsAdmin(t, k)
  }

  // ---------------------------------------------------------------- operations

  /** `hashed` is the outcome of hashing the password, when there is one to hash. */
  function Added(t: Table, u: Account, hashed: Option<string>): Change {
    var email := NormalizeEmail(u.email);
    var v := u.(email := email, id := if u.id == "" then email else u.id);
    if email == "" then Change(t, Some(EmailRequired))
    else if email in t then Change(t, Some(AlreadyExists))
    else if u.password != "" && |u.password| < 8 then Change(t, Some(PasswordTooShort))
    else if u.password != "" && hashed.None? then Change(t, Some(HashFailed))
    else Change(t[email := if u.password != "" then v.(password := hashed.value) else v], None)
  }

  function Deleted(t: Table, email: string): Change {
    if NormalizeEmail(email) !in t then Change(t, Some(NotFound))
    else Change(t - {NormalizeEmail(email)}, None)
  }

  function RoleSet(t: Table, email: string, role: string): Change {
    var r, k := Lower(TrimSpace(role)), NormalizeEmail(email);
    if !ValidRole(r) then Change(t, Some(InvalidRole))
    else if k !in t then Change(t, Some(NotFound))
    else Change(t[k := t[k].(roles := [r])], None)
  }

  function PasswordSet(t: Table, email: string, newPassword: string, matches: bool, hashed: Option<string>): Change {
    var k := NormalizeEmail(email);
    if |newPassword| < 8 then Change(t, Some(PasswordTooShort))
    else if k !in t then Change(t, Some(NotFound))
    else if !matches then Change(t, Some(WrongPassword))
    else if hashed.None? then Change(t, Some(HashFailed))
    else Change(t[k := t[k].(password := hashed.value)], None)
  }

  datatype Profile = Profile(newEmail: string, displayName: string, avatar: string, photoUrl: string, sshKey: string)

  predicate AcceptedPhoto(photoUrl: string) {
    "https://" <= photoUrl || "data:image/" <= photoUrl
  }

  function ProfileError(p: Profile): Option<Error> {
    if |p.avatar| > 2 then Some(AvatarTooLong)
    else if p.photoUrl != "" && |p.photoUrl| > MAX_PHOTO then Some(PhotoTooLarge)
    else if p.photoUrl != "" && !AcceptedPhoto(p.photoUrl) then Some(PhotoScheme)
    else None
  }

  function NewEmail(email: string, p: Profile): string {
    if NormalizeEmail(p.newEmail) == "" then NormalizeEmail(email) else NormalizeEmail(p.newEmail)
  }

  /** An account that moves from key k to key n. */
  function Renamed(u: Account, k: string, n: string): Account {
    if n != k then u.(email := n, id := n) else u
  }

  /** An account after a successful edit that leaves it under key n. */
  function Edited(u: Account, k: string, n: string, p: Profile): Account {
    u.(email := if n != k then n else u.email, id := if n != k then n else u.id,
       displayName := p.displayName, avatar := p.avatar, photoUrl := p.photoUrl, sshKey := p.sshKey)
  }

  /** The display name is stored before the avatar and the photo are checked. */
  function ProfileSet(t: Table, email: string, p: Profile): Change {
    var k, n := NormalizeEmail(email), NewEmail(email, p);
    if !LooksLikeEmail(n) then Change(t, Some(EmailInvalid))
    else if k !in t then Change(t, Some(NotFound))
    else if n != k && n in t then Change(t, Some(EmailTaken))
    else if ProfileError(p) != None then Change(t[k := t[k].(displayName := p.displayName)], ProfileError(p))
    else Change((t - {k})[n := Edited(t[k], k, n, p)], None)
  }

  // ---------------------------------------------------------------- keying

  /** Filing an account under its own normalised email keeps the table keyed. */
  lemma FileKeeps(t: Table, k: string, u: Account)
    requires Keyed(t)
    requires u.email == k && NormalizeEmail(k) == k && (u.id == "" ==> k == "")
    ensures Keyed(t[k := u])
  {
  }

  datatype Operation =
    | Add(user: Account, hashed: Option<string>)
    | Delete(email: string)
    | SetRole(email: string, role: string)
    | SetPassword(email: string, newPassword: string, matches: bool, hashed: Option<string>)
    | SetProfile(email: string, profile: Profile)

  function Apply(t: Table, op: Operation): Change {
    match op
    case Add(u, hashed) => Added(t, u, hashed)
    case Delete(email) => Deleted(t, email)
    case SetRole(email, role) => RoleSet(t, email, role)
    case SetPassword(email, newPassword, matches, hashed) => PasswordSet(t, email, newPassword, matches, hashed)
    case SetProfile(email, profile) => ProfileSet(t, email, profile)
  }

  lemma SetProfileKeeps(t: Table, email: string, p: Profile)
    requires Keyed(t)
    ensures Keyed(ProfileSet(t, email, p).table)
  {
    var k, n := NormalizeEmail(email), NewEmail(email, p);
    NormalizeIdempotent(email);
    NormalizeIdempotent(p.newEmail);
    assert !LooksLikeEmail("") by { assert Split("", '@') == [""]; }
    var c := ProfileSet(t, email, p);
    if c.error == None {
      FileKeeps(t - {k}, n, c.table[n]);
    }
  }

  lemma OperationKeeps(t: Table, op: Operation)
    requires Keyed(t)
    ensures Keyed(Apply(t, op).table)
  {
    if op.SetProfile? {
      SetProfileKeeps(t, op.email, op.profile);
    } else if op.Add? {
      NormalizeIdempotent(op.user.email);
    }
  }

  /** The table after a run of operations, whether or not they succeed. */
  function AfterAll(t: Table, ops: seq<Operation>): Table {
    if ops == [] then t else Apply(AfterAll(t, ops[..|ops| - 1]), ops[|ops| - 1]).table
  }

  /** Over all runs every account stays under its own normalised email. */
  lemma {:induction false} KeyedOverRuns(t: Table, ops: seq<Operation>)
    requires Keyed(t)
    ensures Keyed(AfterAll(t, ops))
  {
    if ops != [] {
      KeyedOverRuns(t, ops[..|ops| - 1]);
      OperationKeeps(AfterAll(t, ops[..|ops| - 1]), ops[|ops| - 1]);
    }
  }

  /** A successful rename moves one account, keeps its role and password, and touches no
      other; a failed edit moves nothing and changes at most one display name. */
  lemma RenameMovesOne(t: Table, email: string, p: Profile)
    requires Keyed(t)
    ensures var k, n, c := NormalizeEmail(email), NewEmail(email, p), ProfileSet(t, email, p);
            && (c.error == None ==>
                  && k in t && c.table.Keys == t.Keys - {k} + {n} && (n != k ==> n !in t)
                  && c.table[n].roles == t[k].roles && c.table[n].password == t[k].password && c.table[n].email == n)
            && (c.error != None ==>
                  && c.table.Keys == t.Keys
                  && (k in t ==> c.table[k] == t[k].(displayName := c.table[k].displayName)))
            && forall other :: other in t && other != k && other != n ==> other in c.table && c.table[other] == t[other]
  {
    NormalizeIdempotent(email);
  }
}
