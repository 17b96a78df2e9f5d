/**
  The credential check of lib/auth.ts: a fixed list of accounts, looked up
  with a case-insensitive email and a case-sensitive password.
 */
module Auth {
  import opened Basics
  import opened Text

  datatype AuthUser = AuthUser(id: string, email: string, password: string, name: string)

  /** `AUTHORIZED_USERS`. */
  const AuthorizedUsers: seq<AuthUser> := [
    AuthUser("1", "johndoe@gmail.com", "123abc!@", "John Doe"),
    AuthUser("2", "reetikesh@gmail.com", "123abc!@", "Reetikesh"),
    AuthUser("3", "srijan@gmail.com", "123abc!@", "Srijan")
  ]

  /** Two emails name the same account when they agree after lowercasing. */
  predicate SameEmail(a: string, b: string)
  {
    ToLower(a) == ToLower(b)
  }

  /** The predicate handed to `find`. */
  predicate Matches(u: AuthUser, email: string, password: string)
  {
    SameEmail(u.email, email) && u.password == password
  }

  /** `Array.prototype.find`'s scan from position `i`: the first matching
      account at or after `i`, or `|users|`. */
  function FindMatch(users: seq<AuthUser>, email: string, password: string, i: nat): (k: nat)
    requires i <= |users|
    ensures i <= k <= |users|
    ensures k < |users| ==> Matches(users[k], email, password)
    ensures forall j :: i <= j < k ==> !Matches(users[j], email, password)
    decreases |users| - i
  {
    if i == |users| then i
    else if Matches(users[i], email, password) then i
    else FindMatch(users, email, password, i + 1)
  }

  /** `validateCredentials`: an account exactly when one matches, and then
      the first one that does. */
  function ValidateCredentials(email: string, password: string): (r: Option<AuthUser>)
    ensures r.Some? <==> exists i :: 0 <= i < |AuthorizedUsers| && Matches(AuthorizedUsers[i], email, password)
    ensures r.Some? ==> r.value in AuthorizedUsers && Matches(r.value, email, password)
  {
    var k := FindMatch(AuthorizedUsers, email, password, 0);
    if k < |AuthorizedUsers| then Some(AuthorizedUsers[k]) else None
  }

  /** `Array.prototype.some`'s scan from position `i`: whether an account
      at or after `i` has this email, up to case. */
  function AnyEmail(users: seq<AuthUser>, email: string, i: nat): (b: bool)
    requires i <= |users|
    ensures b <==> exists j :: i <= j < |users| && SameEmail(users[j].email, email)
    decreases |users| - i
  {
    if i == |users| then false
    else SameEmail(users[i].email, email) || AnyEmail(users, email, i + 1)
  }

  /** `isAuthorizedEmail`: some account has this email, up to case. */
  function IsAuthorizedEmail(email: string): (b: bool)
    ensures b <==> exists i :: 0 <= i < |AuthorizedUsers| && SameEmail(AuthorizedUsers[i].email, email)
  {
    AnyEmail(AuthorizedUsers, email, 0)
  }

  /** Credentials that validate belong to an authorized email. */
  lemma ValidImpliesAuthorized(email: string, password: string)
    ensures ValidateCredentials(email, password).Some? ==> IsAuthorizedEmail(email)
  {
    if ValidateCredentials(email, password).Some? {
      var i :| 0 <= i < |AuthorizedUsers| && Matches(AuthorizedUsers[i], email, password);
      assert SameEmail(AuthorizedUsers[i].email, email);
    }
  }

  /** The stored emails are pairwise distinct even up to case, so no two
      accounts can match the same credentials. */
  lemma EmailsDistinct()
    ensures forall i, j :: 0 <= i < j < |AuthorizedUsers| ==>
              !SameEmail(AuthorizedUsers[i].email, AuthorizedUsers[j].email)
  {
    forall i, j | 0 <= i < j < |AuthorizedUsers|
      ensures !SameEmail(AuthorizedUsers[i].email, AuthorizedUsers[j].email)
    {
      var a := AuthorizedUsers[i].email;
      var b := AuthorizedUsers[j].email;
      assert ToLower(a)[0] == LowerChar(a[0]) && ToLower(b)[0] == LowerChar(b[0]);
    }
  }

  lemma AtMostOneMatch(email: string, password: string, i: int, j: int)
    requires 0 <= i < |AuthorizedUsers| && 0 <= j < |AuthorizedUsers|
    requires Matches(AuthorizedUsers[i], email, password) && Matches(AuthorizedUsers[j], email, password)
    ensures i == j
  {
    EmailsDistinct();
  }

  /** Only the case of the email is ignored: lowercasing it changes nothing. */
  lemma EmailCaseInsensitive(email: string, password: string)
    ensures ValidateCredentials(ToLower(email), password) == ValidateCredentials(email, password)
  {
    ToLowerIdempotent(email);
  }

  /** The password is compared exactly: the upper-case variant of the
      shared password is refused. */
  lemma PasswordCaseSensitive()
    ensures ValidateCredentials("johndoe@gmail.com", "123abc!@").Some?
    ensures ValidateCredentials("johndoe@gmail.com", "123ABC!@").None?
  {
    assert Matches(AuthorizedUsers[0], "johndoe@gmail.com", "123abc!@");
  }

  /** Nothing is trimmed: an email with whitespace at either end never
      validates. */
  lemma PaddedEmailRejected(email: string, password: string)
    requires |email| > 0 && (IsSpace(email[0]) || IsSpace(email[|email| - 1]))
    ensures ValidateCredentials(email, password).None?
    ensures !IsAuthorizedEmail(email)
  {
    forall i | 0 <= i < |AuthorizedUsers|
      ensures !SameEmail(AuthorizedUsers[i].email, email)
    {
      var a := AuthorizedUsers[i].email;
      assert a[|a| - 1] == 'm';
      assert a[0] in "jrs";
      PaddedNeverSame(a, email);
    }
  }

  /** An email with no whitespace at its ends differs, up to case, from
      every padded one. */
  lemma PaddedNeverSame(a: string, email: string)
    requires |a| > 0 && !IsSpace(a[0]) && !IsSpace(a[|a| - 1])
    requires |email| > 0 && (IsSpace(email[0]) || IsSpace(email[|email| - 1]))
    ensures !SameEmail(a, email)
  {
    if SameEmail(a, email) {
      ToLowerSpace(email, 0);
      ToLowerSpace(email, |email| - 1);
      ToLowerSpace(a, 0);
      ToLowerSpace(a, |a| - 1);
      assert false;
    }
  }
}
