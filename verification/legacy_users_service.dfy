/** The earlier `UsersService` of the standalone users service: the same
    registration flow with fewer checks. Email, password and phone are
    required (the username is not), the email and the phone must be free and
    the code must match; there is no username check and no password rule.

    The finders are those of the users app, which skip soft-deleted rows.
    The standalone user table has no `deletedAt` column and its finders no
    such filter; the two agree because every standalone row is live (its
    `deletedAt` is None), which is how this service's rows are built. The
    table's `username` column is NOT NULL, so a form without a username
    passes validation, spends its code and is then refused by the save. */
module LegacyUsersService {
  import opened Common
  import opened UserRepository
  import opened PhoneVerification
  import UsersService

  type UserDto = UsersService.UserDto
  type Checked<T> = UsersService.Checked<T>

  /** `validateUser` of the standalone service. */
  function ValidateUser(users: seq<User>, otps: OtpStore, dto: UserDto, now: int): (r: Checked<()>)
    ensures r.result == Err("email is required") <==> !Present(dto.email)
    ensures r.result == Err("password is required") <==> Present(dto.email) && !Present(dto.password)
    ensures r.result == Err("phone is required") <==> Present(dto.email) && Present(dto.password) && !Present(dto.phone)
    ensures r.result.Ok? <==>
      Present(dto.email) && Present(dto.password) && Present(dto.phone)
      && FindByEmail(users, dto.email.value).None? && FindByPhone(users, dto.phone.value).None?
      && VerifyOtp(otps, dto.phone.value, dto.otp, now).1
    ensures r.otps != otps ==> (r.result.Ok? && r.otps == VerifyOtp(otps, dto.phone.value, dto.otp, now).0)
  {
    if !Present(dto.email) then UsersService.Checked(otps, Err("email is required"))
    else if !Present(dto.password) then UsersService.Checked(otps, Err("password is required"))
    else if !Present(dto.phone) then UsersService.Checked(otps, Err("phone is required"))
    else if FindByEmail(users, dto.email.value).Some? then UsersService.Checked(otps, Err("Email already in use"))
    else if FindByPhone(users, dto.phone.value).Some? then UsersService.Checked(otps, Err("Phone already in use"))
    else
      var (after, verified) := VerifyOtp(otps, dto.phone.value, dto.otp, now);
      if !verified then UsersService.Checked(otps, Err("Phone not verified"))
      else UsersService.Checked(after, Ok(()))
  }

  /** The database's refusal of a row whose NOT NULL `username` is unset. */
  const UsernameNullMessage: string := "null value in column username violates not-null constraint"

  /** `createUser` of the standalone service: validation first, then the
      row with the hashed password. A form without a username has passed
      validation (and spent its code) when the save refuses it. */
  function CreateUser(users: seq<User>, otps: OtpStore, dto: UserDto, userId: int, hash: string -> string, now: int): (r: (seq<User>, Checked<User>))
    ensures r.1.otps == ValidateUser(users, otps, dto, now).otps
    ensures ValidateUser(users, otps, dto, now).result.Err? ==> r.1.result == Err(ValidateUser(users, otps, dto, now).result.error)
    ensures r.1.result == Err(UsernameNullMessage) <==>
      ValidateUser(users, otps, dto, now).result.Ok? && dto.username.None?
    ensures r.1.result.Ok? <==> ValidateUser(users, otps, dto, now).result.Ok? && dto.username.Some?
    ensures r.1.result.Err? ==> r.0 == users
    ensures r.1.result.Ok? ==>
      (Present(dto.password) && r.0 == users + [r.1.result.value]
       && r.1.result.value == UsersService.NewUser(dto, userId, hash)
       && r.1.result.value.username.Some?)
  {
    var v := ValidateUser(users, otps, dto, now);
    match v.result
    case Err(e) => (users, UsersService.Checked(v.otps, Err(e)))
    case Ok(_) =>
      if dto.username.None? then (users, UsersService.Checked(v.otps, Err(UsernameNullMessage)))
      else
        var u := UsersService.NewUser(dto, userId, hash);
        (users + [u], UsersService.Checked(v.otps, Ok(u)))
  }

  /** A form without a username spends its code and adds no user. */
  lemma MissingUsernameSpendsCode(users: seq<User>, otps: OtpStore, dto: UserDto, userId: int, hash: string -> string, now: int)
    requires Present(dto.email) && Present(dto.password) && Present(dto.phone) && dto.username.None?
    requires FindByEmail(users, dto.email.value).None? && FindByPhone(users, dto.phone.value).None?
    requires VerifyOtp(otps, dto.phone.value, dto.otp, now).1
    ensures var r := CreateUser(users, otps, dto, userId, hash, now);
      r.0 == users && r.1.result == Err(UsernameNullMessage)
      && r.1.otps == VerifyOtp(otps, dto.phone.value, dto.otp, now).0
      && ValidateUser(users, otps, dto, now).result.Ok?
  {
  }

  /** Every registration the users app accepts, the standalone service
      accepts too, consuming the same code. */
  lemma AppStricterThanLegacy(users: seq<User>, otps: OtpStore, dto: UserDto, now: int)
    requires UsersService.ValidateUser(users, otps, dto, now).result.Ok?
    ensures ValidateUser(users, otps, dto, now) == UsersService.ValidateUser(users, otps, dto, now)
  {
    UsersService.ValidateUserAccepts(users, otps, dto, now);
  }

  /** The converse fails: a form with a free email, username and phone, a
      matching code and the password "123456" passes here and is refused by
      the users app for its password. */
  lemma WeakPasswordOnlyLegacy(users: seq<User>, otps: OtpStore, dto: UserDto, now: int)
    requires Present(dto.email) && Present(dto.phone) && Present(dto.username)
    requires dto.password == Some("123456")
    requires FindByEmail(users, dto.email.value).None? && FindByUsername(users, dto.username.value).None?
    requires FindByPhone(users, dto.phone.value).None?
    requires VerifyOtp(otps, dto.phone.value, dto.otp, now).1
    ensures ValidateUser(users, otps, dto, now).result.Ok?
    ensures UsersService.ValidateUser(users, otps, dto, now).result == Err("Password doesnt meet requirements")
  {
    UsersService.NoUpperFails("123456");
  }

  /** The standalone service ignores the username: two forms that differ
      only there get the same answer. */
  lemma UsernameIgnored(users: seq<User>, otps: OtpStore, dto: UserDto, username: Option<string>, now: int)
    ensures ValidateUser(users, otps, dto.(username := username), now) == ValidateUser(users, otps, dto, now)
  {
  }
}
