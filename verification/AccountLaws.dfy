/** When the store operations succeed, with which error they fail otherwise, and what they
    leave behind. */
module AccountLaws {
  import opened Common
  import opened Text
  import opened TextMeaning
  import opened Accounts

  // ---------------------------------------------------------------- addresses

  /** An address is accepted when it has one "@", not at the start, and a dot behind it. */
  ghost predicate Plausible(email: string) {
    exists i, j :: 0 < i < j < |email| && AtSign(email, i) && email[j] == '.'
  }

  /** The only "@" is at position i. */
  predicate AtSign(email: string, i: nat) {
    i < |email| && email[i] == '@' && forall k :: 0 <= k < |email| && k != i ==> email[k] != '@'
  }

  lemma LooksLikeEmailIff(email: string)
    ensures LooksLikeEmail(email) <==> Plausible(email)
  {
    if Plausible(email) {
      var i, j :| 0 < i < j < |email| && AtSign(email, i) && email[j] == '.';
      SplitAtSign(email, i, j);
    }
    if LooksLikeEmail(email) {
      AtSignOfParts(email);
    }
  }

  lemma SplitAtSign(email: string, i: nat, j: nat)
    requires 0 < i < j < |email| && AtSign(email, i) && email[j] == '.'
    ensures LooksLikeEmail(email)
  {
    var local, domain := email[..i], email[i + 1..];
    assert email == local + ['@'] + domain;
    SplitFirst(local, '@', domain);
    SplitWhole(domain, '@');
    assert domain[j - i - 1] == '.';
  }

  lemma AtSignOfParts(email: string)
    requires LooksLikeEmail(email)
    ensures Plausible(email)
  {
    var parts := Split(email, '@');
    JoinSplit(email, '@');
    PartsAreClean(email, '@');
    assert parts == [parts[0], parts[1]];
    var i := |parts[0]|;
    assert Join([parts[1]], '@') == parts[1];
    assert email == parts[0] + ['@'] + parts[1];
    var k :| 0 <= k < |parts[1]| && parts[1][k] == '.';
    assert AtSign(email, i) && email[i + 1 + k] == '.';
  }

  /** Addresses are one key when they differ in case and in the blanks around them only. */
  lemma SameKeyIff(a: string, b: string)
    requires Bare(a)
    ensures NormalizeEmail(a) == NormalizeEmail(b) <==> exists t :: Bare(t) && Surrounded(b, t) && SameLetters(a, t)
  {
    var t := TrimSpace(b);
    TrimmedIsBare(b);
    assert TrimSpace(a) == a by {
      assert a == "" + a + "";
      TrimmedTo("", a, "");
    }
    LowerEqualIff(a, t);
    if u :| Bare(u) && Surrounded(b, u) && SameLetters(a, u) {
      TrimmedIff(b, u);
    }
  }

  lemma BlankKeyIff(email: string)
    ensures NormalizeEmail(email) == "" <==> Blanks(email)
  {
    if Blanks(email) {
      assert email + "" + "" == email;
      TrimmedTo(email, "", "");
    } else if NormalizeEmail(email) == "" {
      assert TrimSpace(email) == "";
      TrimmedIsBare(email);
    }
  }

  // ---------------------------------------------------------------- operations

  /** Nothing but account k has changed. */
  ghost predicate OnlyAt(t: Table, r: Table, k: string) {
    r.Keys == t.Keys && forall other :: other in t && other != k ==> r[other] == t[other]
  }

  /** A password is changed exactly when the new one has 8 characters, the account exists,
      the old one was right and hashing works; the first of these that fails is reported. */
  lemma SetPasswordIff(t: Table, email: string, newPassword: string, matches: bool, hashed: Option<string>)
    ensures var c, k := Apply(t, SetPassword(email, newPassword, matches, hashed)), NormalizeEmail(email);
            && (c.error == None <==> |newPassword| >= 8 && k in t && matches && hashed.Some?)
            && (c.error == Some(PasswordTooShort) <==> |newPassword| < 8)
            && (c.error == Some(NotFound) <==> |newPassword| >= 8 && k !in t)
            && (c.error == Some(WrongPassword) <==> |newPassword| >= 8 && k in t && !matches)
            && (c.error != None ==> c.table == t)
            && (c.error == None ==> OnlyAt(t, c.table, k) && c.table[k] == t[k].(password := hashed.value))
  {
  }

  /** A role is given exactly when it is one of the three, however typed, and the account
      exists; it is then the only role of that account. */
  lemma SetRoleIff(t: Table, email: string, role: string)
    ensures var c, k, r := Apply(t, SetRole(email, role)), NormalizeEmail(email), Lower(TrimSpace(role));
            && (c.error == None <==> (r == "admin" || r == "operator" || r == "viewer") && k in t)
            && (c.error == Some(InvalidRole) <==> r != "admin" && r != "operator" && r != "viewer")
            && (c.error != None ==> c.table == t)
            && (c.error == None ==>
                  OnlyAt(t, c.table, k) && c.table[k] == t[k].(roles := [r]) && RoleOf(c.table[k].roles) == r)
  {
    LowerIdempotent(TrimSpace(role));
    LowerTrimCommute(TrimSpace(role));
    TrimIdempotent(role, IsSpace);
  }

  /** An account is added exactly when its address is new and not empty and its password, if
      any, has 8 characters and can be hashed; nobody else changes. */
  lemma AddIff(t: Table, u: Account, hashed: Option<string>)
    ensures var c, k := Apply(t, Add(u, hashed)), NormalizeEmail(u.email);
            && (c.error == None <==> k != "" && k !in t && (u.password == "" || (|u.password| >= 8 && hashed.Some?)))
            && (c.error == Some(EmailRequired) <==> k == "")
            && (c.error == Some(AlreadyExists) <==> k != "" && k in t)
            && (c.error == Some(PasswordTooShort) <==> k != "" && k !in t && 0 < |u.password| < 8)
            && (c.error != None ==> c.table == t)
            && (c.error == None ==>
                  && c.table.Keys == t.Keys + {k} && (forall other :: other in t ==> c.table[other] == t[other])
                  && var v := c.table[k];
                     && v.email == k && v.id == (if u.id == "" then k else u.id)
                     && v.password == (if u.password == "" then "" else hashed.value)
                     && v.roles == u.roles && v.displayName == u.displayName && v.avatar == u.avatar
                     && v.photoUrl == u.photoUrl && v.sshKey == u.sshKey)
  {
  }

  /** An account is deleted exactly when it exists, and nobody else is. */
  lemma DeleteIff(t: Table, email: string)
    ensures var c, k := Apply(t, Delete(email)), NormalizeEmail(email);
            && (c.error == None <==> k in t)
            && (c.error == Some(NotFound) <==> k !in t)
            && c.table.Keys == t.Keys - {k}
            && forall other :: other in c.table ==> c.table[other] == t[other]
  {
  }

  // ---------------------------------------------------------------- profiles

  predicate StartsWith(s: string, prefix: string) {
    |prefix| <= |s| && s[..|prefix|] == prefix
  }

  /** No avatar of more than two characters, no picture above 2 MiB or of another scheme. */
  predicate GoodPictures(p: Profile) {
    && |p.avatar| <= 2
    && (p.photoUrl == "" ||
        (|p.photoUrl| <= 2_097_152 && (StartsWith(p.photoUrl, "https://") || StartsWith(p.photoUrl, "data:image/"))))
  }

  lemma PicturesIff(p: Profile)
    ensures ProfileError(p) == None <==> GoodPictures(p)
    ensures ProfileError(p) == Some(AvatarTooLong) <==> |p.avatar| > 2
  {
    PrefixIff(p.photoUrl, "https://");
    PrefixIff(p.photoUrl, "data:image/");
  }

  lemma PrefixIff(s: string, prefix: string)
    ensures prefix <= s <==> StartsWith(s, prefix)
  {
  }

  /** The key of the account behind an edit: the new address, or the old one if the new one
      is blank. */
  function KeyAfter(email: string, p: Profile): string {
    NormalizeEmail(if Blanks(p.newEmail) then email else p.newEmail)
  }

  lemma KeyAfterEdit(email: string, p: Profile)
    ensures NewEmail(email, p) == KeyAfter(email, p)
  {
    BlankKeyIff(p.newEmail);
  }

  /** A profile is edited exactly when the address is plausible and free or the account's own,
      the account exists, and the pictures are good.  A failed edit changes nothing, unless
      only the pictures were bad: then the display name has changed. */
  lemma SetProfileIff(t: Table, email: string, p: Profile)
    ensures var c, k, n := Apply(t, SetProfile(email, p)), NormalizeEmail(email), KeyAfter(email, p);
            && (c.error == None <==> Plausible(n) && k in t && (n == k || n !in t) && GoodPictures(p))
            && (c.error == Some(EmailInvalid) <==> !Plausible(n))
            && (c.error == Some(NotFound) <==> Plausible(n) && k !in t)
            && (c.error == Some(EmailTaken) <==> Plausible(n) && k in t && n != k && n in t)
            && (c.error != None && !(Plausible(n) && k in t && (n == k || n !in t)) ==> c.table == t)
            && (c.error != None && Plausible(n) && k in t && (n == k || n !in t) ==>
                  OnlyAt(t, c.table, k) && c.table[k] == t[k].(displayName := p.displayName))
  {
    KeyAfterEdit(email, p);
    LooksLikeEmailIff(KeyAfter(email, p));
    PicturesIff(p);
  }

  /** What a successful edit leaves: the fields of the profile, the old password and roles,
      and a new address and id exactly when it moved. */
  lemma EditedFields(t: Table, email: string, p: Profile)
    requires Apply(t, SetProfile(email, p)).error == None
    ensures var r, k, n := Apply(t, SetProfile(email, p)).table, NormalizeEmail(email), KeyAfter(email, p);
            && k in t && n in r && r.Keys == t.Keys - {k} + {n}
            && (forall other :: other in t && other != k ==> other in r && r[other] == t[other])
            && r[n].displayName == p.displayName && r[n].avatar == p.avatar && r[n].photoUrl == p.photoUrl
            && r[n].sshKey == p.sshKey && r[n].password == t[k].password && r[n].roles == t[k].roles
            && (n != k ==> r[n].email == n && r[n].id == n)
            && (n == k ==> r[n].email == t[k].email && r[n].id == t[k].id)
  {
    KeyAfterEdit(email, p);
  }
}
