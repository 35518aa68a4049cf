/** `AuthService`: login with `AuthException`s, registration, single-use
    email confirmation, and the two password-reset entry points that are not
    implemented. JWT creation is the input `issue`; BCrypt is `verify` plus
    hashes handed in as inputs. */
module AuthServices {
  import opened Common
  import opened UserEntity
  import opened UserDtos
  import opened UserRepositories
  import opened Mail
  import Text

  const InvalidCredentials := "Invalid credentials"
  const EmailNotConfirmed := "Email not confirmed"
  const EmailAlreadyExists := "Email already exists"
  const InvalidToken := "Неверный токен"
  const ConfirmSubject := "Подтвердите ваш email"

  /** What `LoginAsync` answers once it has found `u`: a wrong password and
      an unconfirmed address both throw `AuthException`, the password first. */
  function LoginVerdict(u: User, password: string, verify: (string, string) -> bool, issue: User -> string)
    : (r: Result<string>)
    ensures !verify(password, u.PasswordHash) ==> r == Failure(Auth(InvalidCredentials))
    ensures verify(password, u.PasswordHash) && !u.EmailConfirmed ==> r == Failure(Auth(EmailNotConfirmed))
    ensures r.Success? <==> verify(password, u.PasswordHash) && u.EmailConfirmed
    ensures r.Success? ==> r.value == issue(u)
  {
    if !verify(password, u.PasswordHash) then Failure(Auth(InvalidCredentials))
    else if !u.EmailConfirmed then Failure(Auth(EmailNotConfirmed))
    else Success(issue(u))
  }

  /** The account `RegisterAsync` builds, exactly as written: only the
      address (as typed), hash, token, confirmation flag and creation time
      are set, so the name stays empty and role and activity keep their
      defaults. */
  function RegisteredUserAsWritten(dto: UserDto, hash: string, token: string, id: Guid, now: Time): (u: User)
    ensures u.Email == dto.Email && Visible(u)
  {
    NewUser(now).(
      Email := dto.Email, PasswordHash := hash, ConfirmationToken := Some(token),
      EmailConfirmed := false, CreatedAt := now, Id := id)
  }

  /** With "Bo@y.io" registered as written, `RegisterAsync` does not find the
      address again, so registering it a second time does not throw
      "Email already exists". */
  lemma MixedCaseEmailRegistersTwice()
    ensures
      var dto := UserDto("", "Bo@y.io", "secret");
      var t: Table := map[7 := RegisteredUserAsWritten(dto, "h", "tok", 7, 0)];
      Visible(t[7]) && t[7].Email == dto.Email && !EmailTaken(t, dto.Email)
  {
    var dto := UserDto("", "Bo@y.io", "secret");
    Text.UpperCaseIsNotLowered(dto.Email, 0);
  }

  /** The account registration builds, with the address stored lower-cased
      as the lookup expects: empty name, default role and activity,
      unconfirmed, holding the token, and found by its address. */
  function RegisteredUser(dto: UserDto, hash: string, token: string, id: Guid, now: Time): (u: User)
    ensures u.Id == id && u.Name == "" && u.PasswordHash == hash
    ensures u.Role == DefaultRole && u.IsActive && !u.EmailConfirmed && !u.IsDeleted
    ensures u.ConfirmationToken == Some(token)
    ensures HasEmail(u, dto.Email)
  {
    Text.ToLowerIdempotent(dto.Email);
    RegisteredUserAsWritten(dto, hash, token, id, now).(Email := Text.ToLower(dto.Email))
  }

  /** `SendConfirmationEmail`. */
  function ConfirmationMail(u: User): (m: Message)
    ensures m.To == u.Email && m.Subject == ConfirmSubject
  {
    var link := "http://192.168.0.105:5000/api/auth/confirm-email?token=" + u.ConfirmationToken.GetOr("");
    Message(u.Email, ConfirmSubject,
      "Пожалуйста, подтвердите ваш email, перейдя по <a href='" + link + "'>ссылке</a>")
  }

  /** A confirmed account: the flag is set and the token is spent. */
  function Confirmed(u: User): (r: User)
    ensures r.EmailConfirmed && r.ConfirmationToken == None
    ensures r == u.(EmailConfirmed := true, ConfirmationToken := None)
    ensures forall token :: !HoldsConfirmationToken(r, token)
  {
    u.(EmailConfirmed := true, ConfirmationToken := None)
  }

  /** Confirmation is single-use: once the only holder of a token is
      confirmed, nobody holds the token any more, so a second
      `ConfirmEmailAsync` with it throws. */
  lemma ConfirmationIsSingleUse(t: Table, id: Guid, token: string)
    requires id in t && HoldsConfirmationToken(t[id], token)
    requires forall k :: k in t && k != id ==> !HoldsConfirmationToken(t[k], token)
    ensures !ConfirmationTokenHeld(t[id := Confirmed(t[id])], token)
  {
    var after := t[id := Confirmed(t[id])];
    forall k | k in after ensures !HoldsConfirmationToken(after[k], token) {
      if k == id {
        assert after[k] == Confirmed(t[id]);
      }
    }
  }

  class AuthService {
    const repository: UserRepository
    const outbox: Outbox

    constructor (repository: UserRepository, outbox: Outbox)
      ensures this.repository == repository && this.outbox == outbox
    {
      this.repository := repository;
      this.outbox := outbox;
    }

    /** `LoginAsync`. */
    method Login(dto: LoginDto, verify: (string, string) -> bool, issue: User -> string)
      returns (r: Result<string>)
      requires repository.Valid()
      ensures !EmailTaken(repository.users, dto.Email) ==> r == Failure(Auth(InvalidCredentials))
      ensures EmailTaken(repository.users, dto.Email) ==>
        exists id :: id in repository.users && HasEmail(repository.users[id], dto.Email)
          && r == LoginVerdict(repository.users[id], dto.Password, verify, issue)
    {
      var user := repository.GetByEmail(dto.Email);
      if user.None? || !verify(dto.Password, user.value.PasswordHash) {
        return Failure(Auth(InvalidCredentials));
      }
      if !user.value.EmailConfirmed {
        return Failure(Auth(EmailNotConfirmed));
      }
      r := Success(issue(user.value));
    }

    /** `RegisterAsync`. `dtoValid` is the verdict of the `UserDto` validator;
        `hash` is `HashPassword(dto.Password)`, which `verify` accepts for
        that password; `token` and `newId` are the fresh token and key. */
    method Register(dto: UserDto, dtoValid: bool, verify: (string, string) -> bool, hash: string,
                    token: string, newId: Guid, now: Time)
      returns (r: Result<User>)
      requires repository.Valid() && newId !in repository.users && verify(dto.Password, hash)
      modifies repository, outbox
      ensures repository.Valid()
      ensures !dtoValid ==>
        && r == Failure(Validation)
        && repository.users == old(repository.users) && outbox.sent == old(outbox.sent)
      ensures dtoValid && EmailTaken(old(repository.users), dto.Email) ==>
        && r == Failure(Auth(EmailAlreadyExists))
        && repository.users == old(repository.users) && outbox.sent == old(outbox.sent)
      ensures dtoValid && !EmailTaken(old(repository.users), dto.Email) ==>
        && r == Success(RegisteredUser(dto, hash, token, newId, now))
        && repository.users == old(repository.users)[newId := r.value]
        && outbox.sent == old(outbox.sent) + [ConfirmationMail(r.value)]
        && EmailTaken(repository.users, dto.Email)
        && verify(dto.Password, repository.users[newId].PasswordHash)
    {
      if !dtoValid {
        return Failure(Validation);
      }
      var existing := repository.GetByEmail(dto.Email);
      if existing.Some? {
        return Failure(Auth(EmailAlreadyExists));
      }
      var user := RegisteredUser(dto, hash, token, newId, now);
      var _ := repository.Add(user);
      outbox.Send(ConfirmationMail(user));
      assert repository.users[newId] == user;
      r := Success(user);
    }

    /** `ConfirmEmailAsync`: throws unless a visible, unconfirmed user holds
        the token; that user is confirmed and nothing else changes. */
    method ConfirmEmail(token: string) returns (r: Outcome)
      requires repository.Valid()
      modifies repository
      ensures repository.Valid()
      ensures !ConfirmationTokenHeld(old(repository.users), token) ==>
        r == Fail(Auth(InvalidToken)) && repository.users == old(repository.users)
      ensures ConfirmationTokenHeld(old(repository.users), token) ==>
        && r == Pass
        && exists id :: id in old(repository.users) && HoldsConfirmationToken(old(repository.users)[id], token)
             && repository.users == old(repository.users)[id := Confirmed(old(repository.users)[id])]
    {
      var found := repository.GetByConfirmationToken(token);
      if found.None? {
        return Fail(Auth(InvalidToken));
      }
      var user := found.value;
      user := user.(EmailConfirmed := true);
      user := user.(ConfirmationToken := None);
      r := repository.Update(user);
      assert user == Confirmed(found.value);
    }

    /** `ForgotPasswordAsync` is not implemented. */
    method ForgotPassword(email: string) returns (r: Outcome)
      ensures r == Fail(NotImplemented)
    {
      r := Fail(NotImplemented);
    }

    /** `ResetPasswordAsync` is not implemented. */
    method ResetPassword(dto: ResetPasswordDto) returns (r: Outcome)
      ensures r == Fail(NotImplemented)
    {
      r := Fail(NotImplemented);
    }
  }
}
