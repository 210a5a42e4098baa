/** `AuthService` of the users app: credential lookup for a sign-in and the
    account used for an OAuth sign-in. The lookup tries the email, then the
    phone, each only when given, and takes the first live user found; the
    username in the form is never used. The password comparison (bcrypt) is
    a parameter. */
module AuthService {
  import opened Common
  import opened UserRepository
  import opened JsText
  import UsersService

  /** The sign-in form. */
  datatype AuthDto = AuthDto(
    username: Option<string>,
    email: Option<string>,
    phone: Option<string>,
    password: Option<string>)

  /** A user as returned to the caller: every column but the password. */
  datatype PublicUser = PublicUser(
    userId: int,
    username: Option<string>,
    email: Option<string>,
    phone: Option<string>,
    deletedAt: Option<int>)

  /** `const { password: _, ...rest } = user`. */
  function WithoutPassword(u: User): (r: PublicUser)
    ensures r.userId == u.userId && r.username == u.username && r.email == u.email
    ensures r.phone == u.phone && r.deletedAt == u.deletedAt
  {
    PublicUser(u.userId, u.username, u.email, u.phone, u.deletedAt)
  }

  /** Dropping the password loses nothing else: two users with the same
      public columns differ at most in their passwords. */
  lemma WithoutPasswordKeepsRest(u: User, v: User)
    requires WithoutPassword(u) == WithoutPassword(v)
    ensures u == v.(password := u.password)
  {
  }

  /** The lookups of `validateUser`: by email when one is given, then by
      phone when one is given; the first that finds a live user wins. */
  function Lookup(users: seq<User>, dto: AuthDto): (r: Option<User>)
    ensures Present(dto.email) && FindByEmail(users, dto.email.value).Some? ==>
      r == Some(users[FindByEmail(users, dto.email.value).value])
    ensures r.Some? ==>
      (r.value in users && Live(r.value)
       && ((Present(dto.email) && r.value.email == dto.email) || (Present(dto.phone) && r.value.phone == dto.phone)))
    ensures r.None? <==> forall u :: u in users && Live(u) ==>
      !(Present(dto.email) && u.email == dto.email) && !(Present(dto.phone) && u.phone == dto.phone)
  {
    var byEmail := if Present(dto.email) then FindByEmail(users, dto.email.value) else None;
    var byPhone := if Present(dto.phone) then FindByPhone(users, dto.phone.value) else None;
    if byEmail.Some? then Some(users[byEmail.value])
    else if byPhone.Some? then Some(users[byPhone.value])
    else None
  }

  /** `validateUser`: the user found, without its password, or null. A user
      with a stored password is returned only when a password is given and
      `compare(given, stored)` holds; a user without one needs none. */
  function ValidateUser(users: seq<User>, dto: AuthDto, compare: (string, string) -> bool): (r: Option<PublicUser>)
    ensures Lookup(users, dto).None? ==> r.None?
    ensures r.Some? ==> r == Some(WithoutPassword(Lookup(users, dto).value))
    ensures Lookup(users, dto).Some? ==>
      (r.Some? <==> var u := Lookup(users, dto).value;
         !Present(u.password) || (Present(dto.password) && compare(dto.password.value, u.password.value)))
  {
    match Lookup(users, dto)
    case None => None
    case Some(u) =>
      if Present(u.password) && (!Present(dto.password) || !compare(dto.password.value, u.password.value)) then None
      else Some(WithoutPassword(u))
  }

  /** The username in the form plays no part in the answer. */
  lemma UsernameNotUsed(users: seq<User>, dto: AuthDto, username: Option<string>, compare: (string, string) -> bool)
    ensures ValidateUser(users, dto.(username := username), compare) == ValidateUser(users, dto, compare)
  {
  }

  /** When both are given and name different live users, the email decides
      which user is checked: a correct password for the phone's user alone
      is not enough. */
  lemma EmailBeforePhone(users: seq<User>, dto: AuthDto, compare: (string, string) -> bool)
    requires Present(dto.email) && FindByEmail(users, dto.email.value).Some?
    ensures var u := users[FindByEmail(users, dto.email.value).value];
      ValidateUser(users, dto, compare).Some? ==>
        ValidateUser(users, dto, compare) == Some(WithoutPassword(u))
        && (Present(u.password) ==> Present(dto.password) && compare(dto.password.value, u.password.value))
  {
  }

  /** A soft-deleted user never signs in, whatever the credentials. */
  lemma DeletedUserRejected(users: seq<User>, dto: AuthDto, compare: (string, string) -> bool)
    requires forall u :: u in users ==> !Live(u)
    ensures ValidateUser(users, dto, compare).None?
  {
  }

  /** The username an OAuth sign-in creates: `email.split('@')[0]`. */
  function OAuthUsername(email: string): (r: string)
    ensures |r| <= |email| && r == email[..|r|] && '@' !in r
  {
    PrefixBeforeSeparator(email, '@');
    SplitOn(email, '@')[0]
  }

  /** The first piece of a split is the text up to the first separator. */
  lemma {:induction false} PrefixBeforeSeparator(s: string, c: char)
    ensures var first := SplitOn(s, c)[0];
      |first| <= |s| && first == s[..|first|] && c !in first
      && (|first| < |s| ==> s[|first|] == c)
  {
    if |s| > 0 {
      PrefixBeforeSeparator(s[1..], c);
    }
  }

  /** The username is the local part: everything before the first '@'. */
  lemma OAuthUsernameLocalPart(local: string, domain: string)
    requires '@' !in local
    ensures OAuthUsername(local + "@" + domain) == local
  {
    SplitOnFirst(local, '@', domain);
  }

  /** `validateOAuthUser` up to the token: the account for the email,
      created with the local part as its username when none is live. */
  function ValidateOAuthUser(users: seq<User>, email: string, userId: int): (r: (seq<User>, User))
    ensures r.1.email == Some(email) && Live(r.1)
    ensures FindByEmail(users, email).None? ==> r.1.username == Some(OAuthUsername(email)) && r.0 == users + [r.1]
    ensures FindByEmail(users, email).Some? ==> r.0 == users
  {
    UsersService.CreateOAuthUser(users, email, OAuthUsername(email), userId)
  }
}
