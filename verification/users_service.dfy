/** `UsersService` of the users app: registration (`createUser` after
    `validateUser`), accounts created on an OAuth sign-in, and the password
    reset guarded by a one-time code. Registration checks run in a fixed
    order and stop at the first failure; the code check consumes the code
    even when a later check fails. Password hashing is a parameter. */
module UsersService {
  import opened Common
  import opened Tables
  import opened UserRepository
  import opened PhoneVerification

  /** The registration form; absent fields are `None`. */
  datatype UserDto = UserDto(
    email: Option<string>,
    password: Option<string>,
    phone: Option<string>,
    username: Option<string>,
    otp: Option<string>)

  // ---------------------------------------------------------------------------
  // The password rule /^(?=.*[A-Z])(?=.*\d)(?=.*[^a-zA-Z]).{8,}$/
  // ---------------------------------------------------------------------------

  /** The characters `.` does not match in a JavaScript regular expression. */
  predicate IsLineTerminator(c: char)
  {
    c == '\n' || c == '\r' || c as int == 0x2028 || c as int == 0x2029
  }

  predicate IsAsciiLetter(c: char)
  {
    IsUpperAscii(c) || IsLowerAscii(c)
  }

  /** The UTF-16 code units of a character: the regular expression counts
      these, not characters. */
  function Utf16Units(c: char): int
  {
    if c as int >= 0x10000 then 2 else 1
  }

  /** What the expression demands: no line terminator anywhere (the lookaheads
      and `.{8,}$` cannot cross one), at least eight code units, an A-Z, a
      0-9 and a character outside a-zA-Z. */
  predicate PasswordRule(p: string)
  {
    (forall i :: 0 <= i < |p| ==> !IsLineTerminator(p[i]))
    && SumOf(p, Utf16Units) >= 8
    && (exists i :: 0 <= i < |p| && IsUpperAscii(p[i]))
    && (exists i :: 0 <= i < |p| && IsDigit(p[i]))
    && (exists i :: 0 <= i < |p| && !IsAsciiLetter(p[i]))
  }

  /** What one left-to-right pass over the password records. */
  datatype PasswordScan = PasswordScan(units: int, upper: bool, digit: bool, nonLetter: bool, terminator: bool)

  /** One pass over the password, character by character. */
  function Scan(p: string): (s: PasswordScan)
    ensures s.units == SumOf(p, Utf16Units)
    ensures s.upper <==> exists i :: 0 <= i < |p| && IsUpperAscii(p[i])
    ensures s.digit <==> exists i :: 0 <= i < |p| && IsDigit(p[i])
    ensures s.nonLetter <==> exists i :: 0 <= i < |p| && !IsAsciiLetter(p[i])
    ensures s.terminator <==> exists i :: 0 <= i < |p| && IsLineTerminator(p[i])
  {
    if |p| == 0 then PasswordScan(0, false, false, false, false)
    else
      var n := |p| - 1;
      var s := Scan(p[..n]);
      var c := p[n];
      assert forall i :: 0 <= i < n ==> p[..n][i] == p[i];
      PasswordScan(s.units + Utf16Units(c), s.upper || IsUpperAscii(c), s.digit || IsDigit(c),
                   s.nonLetter || !IsAsciiLetter(c), s.terminator || IsLineTerminator(c))
  }

  /** `validatePassword`: the regular expression, decided by one pass. */
  function ValidatePassword(p: string): (ok: bool)
    ensures ok <==> PasswordRule(p)
  {
    var s := Scan(p);
    !s.terminator && s.units >= 8 && s.upper && s.digit && s.nonLetter
  }

  /** A digit is already a character outside a-zA-Z, so the third
      lookahead adds nothing to the second. */
  lemma NonLetterLookaheadRedundant(p: string)
    ensures PasswordRule(p) <==>
      (forall i :: 0 <= i < |p| ==> !IsLineTerminator(p[i]))
      && SumOf(p, Utf16Units) >= 8
      && (exists i :: 0 <= i < |p| && IsUpperAscii(p[i]))
      && (exists i :: 0 <= i < |p| && IsDigit(p[i]))
  {
    if exists i :: 0 <= i < |p| && IsDigit(p[i]) {
      var i :| 0 <= i < |p| && IsDigit(p[i]);
      assert !IsAsciiLetter(p[i]);
    }
  }

  /** Without an upper-case letter no password passes, however long. */
  lemma NoUpperFails(p: string)
    requires forall i :: 0 <= i < |p| ==> !IsUpperAscii(p[i])
    ensures !ValidatePassword(p)
  {
  }

  /** Eight characters from the basic plane with an A-Z and a 0-9 pass. */
  lemma ShortestPassing(p: string, i: nat, j: nat)
    requires |p| == 8 && i < 8 && j < 8
    requires forall k :: 0 <= k < 8 ==> p[k] as int < 0x10000 && !IsLineTerminator(p[k])
    requires IsUpperAscii(p[i]) && IsDigit(p[j])
    ensures ValidatePassword(p)
  {
    UnitsOfBasicPlane(p);
    assert !IsAsciiLetter(p[j]);
  }

  /** A string of basic-plane characters has one code unit per character. */
  lemma {:induction false} UnitsOfBasicPlane(p: string)
    requires forall k :: 0 <= k < |p| ==> p[k] as int < 0x10000
    ensures SumOf(p, Utf16Units) == |p|
  {
    if |p| > 0 {
      UnitsOfBasicPlane(p[..|p| - 1]);
    }
  }

  // ---------------------------------------------------------------------------
  // Registration
  // ---------------------------------------------------------------------------

  /** The outcome of a step that may consume a code: the code store after
      it and the result. */
  datatype Checked<T> = Checked(otps: OtpStore, result: Result<T, string>)

  /** `validateUser`: required fields in the order email, password, phone,
      username (an empty string counts as missing); then the email, the
      username and the phone must not belong to a live user; then the code
      sent to the phone must match (which consumes it); last the password
      rule. */
  function ValidateUser(users: seq<User>, otps: OtpStore, dto: UserDto, now: int): (r: Checked<()>)
    ensures r.result == Err("email is required") <==> !Present(dto.email)
    ensures r.result == Err("password is required") <==> Present(dto.email) && !Present(dto.password)
    ensures r.result == Err("phone is required") <==> Present(dto.email) && Present(dto.password) && !Present(dto.phone)
    ensures r.result == Err("username is required") <==>
      Present(dto.email) && Present(dto.password) && Present(dto.phone) && !Present(dto.username)
    ensures r.result.Err? && !Present(dto.username) ==> r.otps == otps
    ensures Present(dto.email) && Present(dto.password) && Present(dto.phone) && Present(dto.username) ==>
      (r.result == Err("Email already in use") <==> FindByEmail(users, dto.email.value).Some?)
    ensures r.result == Err("Username already in use") ==> FindByUsername(users, dto.username.value).Some?
    ensures r.result == Err("Phone already in use") ==> FindByPhone(users, dto.phone.value).Some?
    ensures r.otps != otps ==> Present(dto.phone) && VerifyOtp(otps, dto.phone.value, dto.otp, now) == (r.otps, true)
  {
    if !Present(dto.email) then Checked(otps, Err("email is required"))
    else if !Present(dto.password) then Checked(otps, Err("password is required"))
    else if !Present(dto.phone) then Checked(otps, Err("phone is required"))
    else if !Present(dto.username) then Checked(otps, Err("username is required"))
    else if FindByEmail(users, dto.email.value).Some? then Checked(otps, Err("Email already in use"))
    else if FindByUsername(users, dto.username.value).Some? then Checked(otps, Err("Username already in use"))
    else if FindByPhone(users, dto.phone.value).Some? then Checked(otps, Err("Phone already in use"))
    else
      var (after, verified) := VerifyOtp(otps, dto.phone.value, dto.otp, now);
      if !verified then Checked(otps, Err("Phone not verified"))
      else if !ValidatePassword(dto.password.value) then Checked(after, Err("Password doesnt meet requirements"))
      else Checked(after, Ok(()))
  }

  /** Registration is accepted exactly when every field is given, none of
      email, username and phone is taken, the code matches and the password
      passes; an accepted registration has consumed the code. */
  lemma ValidateUserAccepts(users: seq<User>, otps: OtpStore, dto: UserDto, now: int)
    ensures var r := ValidateUser(users, otps, dto, now);
      r.result.Ok? <==>
        Present(dto.email) && Present(dto.password) && Present(dto.phone) && Present(dto.username)
        && FindByEmail(users, dto.email.value).None?
        && FindByUsername(users, dto.username.value).None?
        && FindByPhone(users, dto.phone.value).None?
        && VerifyOtp(otps, dto.phone.value, dto.otp, now).1
        && PasswordRule(dto.password.value)
    ensures var r := ValidateUser(users, otps, dto, now);
      r.result.Ok? ==> r.otps == VerifyOtp(otps, dto.phone.value, dto.otp, now).0 && OtpKey(dto.phone.value) !in r.otps
  {
  }

  /** A weak password is reported only after the code was used up: the
      user has to request a new code to try again. */
  lemma WeakPasswordBurnsCode(users: seq<User>, otps: OtpStore, dto: UserDto, now: int)
    requires ValidateUser(users, otps, dto, now).result == Err("Password doesnt meet requirements")
    ensures var r := ValidateUser(users, otps, dto, now);
      !VerifyOtp(r.otps, dto.phone.value, dto.otp, now).1
  {
  }

  /** The row `createUser` saves for an accepted form. */
  function NewUser(dto: UserDto, userId: int, hash: string -> string): User
    requires Present(dto.password)
  {
    User(userId, dto.username, dto.email, dto.phone, Some(hash(dto.password.value)), None)
  }

  /** `createUser`: validation first; only an accepted form is saved, with
      the hashed password in place of the plain one. */
  function CreateUser(users: seq<User>, otps: OtpStore, dto: UserDto, userId: int, hash: string -> string, now: int): (r: (seq<User>, Checked<User>))
    ensures r.1.otps == ValidateUser(users, otps, dto, now).otps
    ensures r.1.result.Err? <==> ValidateUser(users, otps, dto, now).result.Err?
    ensures r.1.result.Err? ==> r.0 == users && r.1.result.error == ValidateUser(users, otps, dto, now).result.error
    ensures r.1.result.Ok? ==>
      (Present(dto.password) && r.0 == users + [r.1.result.value]
       && r.1.result.value.password == Some(hash(dto.password.value))
       && r.1.result.value.email == dto.email && r.1.result.value.phone == dto.phone
       && r.1.result.value.username == dto.username && Live(r.1.result.value))
  {
    var v := ValidateUser(users, otps, dto, now);
    match v.result
    case Err(e) => (users, Checked(v.otps, Err(e)))
    case Ok(_) =>
      var u := NewUser(dto, userId, hash);
      (users + [u], Checked(v.otps, Ok(u)))
  }

  /** A registered email, username and phone are taken: the same form is
      refused the second time. */
  lemma CreateUserTakesEmail(users: seq<User>, otps: OtpStore, dto: UserDto, userId: int, hash: string -> string, now: int, later: int)
    requires CreateUser(users, otps, dto, userId, hash, now).1.result.Ok?
    ensures var (after, c) := CreateUser(users, otps, dto, userId, hash, now);
      ValidateUser(after, c.otps, dto, later).result == Err("Email already in use")
  {
    var (after, c) := CreateUser(users, otps, dto, userId, hash, now);
    assert after[|users|].email == dto.email && Live(after[|users|]);
  }

  /** `createOAuthUser`: the live user with the email if there is one,
      unchanged; otherwise a new user holding only the email and username. */
  function CreateOAuthUser(users: seq<User>, email: string, username: string, userId: int): (r: (seq<User>, User))
    ensures FindByEmail(users, email).Some? ==> r.0 == users && r.1 == users[FindByEmail(users, email).value]
    ensures FindByEmail(users, email).None? ==>
      r.0 == users + [r.1] && r.1 == User(userId, Some(username), Some(email), None, None, None)
    ensures r.1.email == Some(email) && Live(r.1)
  {
    match FindByEmail(users, email)
    case Some(i) => (users, users[i])
    case None =>
      var u := User(userId, Some(username), Some(email), None, None, None);
      (users + [u], u)
  }

  /** Signing in with the same account twice creates it at most once. */
  lemma CreateOAuthUserIdempotent(users: seq<User>, email: string, username: string, userId: int, otherId: int)
    ensures var (u1, x) := CreateOAuthUser(users, email, username, userId);
      CreateOAuthUser(u1, email, username, otherId) == (u1, x)
  {
    var (u1, x) := CreateOAuthUser(users, email, username, userId);
    if FindByEmail(users, email).None? {
      assert u1[|users|] == x;
      FirstWhereFirst(u1, (u: User) => u.email == Some(email) && Live(u), |users|);
    }
  }

  // ---------------------------------------------------------------------------
  // Password reset
  // ---------------------------------------------------------------------------

  const ResetMessage: string := "Password has been reset"
  const NoPhoneMessage: string := "You do not have a phone registered. Please register it to be able to reset your password."

  /** `resetPassword`: the user must exist and have a phone, the code sent
      to that phone must match (consuming it), and both passwords must pass
      the rule and be equal. It answers with a message and stores nothing
      else: no password is written. */
  function ResetPassword(users: seq<User>, otps: OtpStore, userId: int, newPassword: string, repeated: string, otp: Option<string>, now: int): (r: Checked<string>)
    ensures r.result == Err("User not found") <==> FindById(users, userId).None?
    ensures r.result == Err(NoPhoneMessage) <==>
      FindById(users, userId).Some? && users[FindById(users, userId).value].phone.None?
    ensures r.result.Ok? ==> r.result.value == ResetMessage && newPassword == repeated && PasswordRule(newPassword)
    ensures r.otps != otps ==>
      (FindById(users, userId).Some? && users[FindById(users, userId).value].phone.Some?
       && VerifyOtp(otps, users[FindById(users, userId).value].phone.value, otp, now) == (r.otps, true))
  {
    match FindById(users, userId)
    case None => Checked(otps, Err("User not found"))
    case Some(i) =>
      match users[i].phone
      case None => Checked(otps, Err(NoPhoneMessage))
      case Some(phone) =>
        var (after, verified) := VerifyOtp(otps, phone, otp, now);
        if !verified then Checked(otps, Err("Restauration code does not match"))
        else if !ValidatePassword(newPassword) then Checked(after, Err("Password does not meet security requirements"))
        else if !ValidatePassword(repeated) then Checked(after, Err("Password confirmation is invalid"))
        else if newPassword != repeated then Checked(after, Err("Passwords do not match"))
        else Checked(after, Ok(ResetMessage))
  }

  /** The reset succeeds exactly when the user exists with a phone, the code
      matches and the two passwords are the same valid password. */
  lemma ResetPasswordAccepts(users: seq<User>, otps: OtpStore, userId: int, newPassword: string, repeated: string, otp: Option<string>, now: int)
    ensures var r := ResetPassword(users, otps, userId, newPassword, repeated, otp, now);
      r.result.Ok? <==>
        FindById(users, userId).Some? && users[FindById(users, userId).value].phone.Some?
        && VerifyOtp(otps, users[FindById(users, userId).value].phone.value, otp, now).1
        && PasswordRule(newPassword) && newPassword == repeated
  {
  }

  /** The password checks come after the code check: a bad new password is
      reported only once the code matched, and the code is then gone. */
  lemma ResetChecksCodeFirst(users: seq<User>, otps: OtpStore, userId: int, newPassword: string, repeated: string, otp: Option<string>, now: int)
    requires ResetPassword(users, otps, userId, newPassword, repeated, otp, now).result == Err("Password does not meet security requirements")
    ensures var i := FindById(users, userId).value;
      !PasswordRule(newPassword) && users[i].phone.Some?
      && VerifyOtp(otps, users[i].phone.value, otp, now).1
      && OtpKey(users[i].phone.value) !in ResetPassword(users, otps, userId, newPassword, repeated, otp, now).otps
  {
  }
}
