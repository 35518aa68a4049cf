/** `UserService`: registration, lookup, profile and password changes, and
    the credential checks of login. BCrypt is seen only through `verify`
    (`BCrypt.Verify`) and through hashes handed in as inputs. */
module UserServices {
  import opened Common
  import opened UserEntity
  import opened UserDtos
  import opened UserRepositories
  import opened Mail
  import Text

  const ConfirmSubject := "Confirm your email"

  /** The account `RegisterUserAsync` builds, exactly as written: the email
      is stored as typed. */
  function RegisteredUserAsWritten(dto: UserDto, hash: string, token: string, id: Guid, now: Time): (u: User)
    ensures u.Email == dto.Email && Visible(u)
  {
    NewUser(now).(
      Name := dto.Name, Email := dto.Email, PasswordHash := hash, Role := DefaultRole,
      IsActive := true, EmailConfirmed := false, CreatedAt := now,
      ConfirmationToken := Some(token), Id := id)
  }

  /** Registering "Ann@x.io" stores that address, but the duplicate check
      looks for "ann@x.io": with the first account in the table, a second
      registration of the same address passes the check. */
  lemma MixedCaseEmailEscapesDuplicateCheck()
    ensures
      var dto := UserDto("Ann", "Ann@x.io", "secret");
      var t: Table := map[1 := RegisteredUserAsWritten(dto, "h", "tok", 1, 0)];
      Visible(t[1]) && t[1].Email == dto.Email && !EmailTaken(t, dto.Email)
  {
    var dto := UserDto("Ann", "Ann@x.io", "secret");
    Text.UpperCaseIsNotLowered(dto.Email, 0);
  }

  /** The account registration builds, with the address stored lower-cased
      as the lookup expects: role "User", active, unconfirmed, holding a
      confirmation token, and found again by the address it registered with. */
  function RegisteredUser(dto: UserDto, hash: string, token: string, id: Guid, now: Time): (u: User)
    ensures u.Id == id && u.Name == dto.Name && u.PasswordHash == hash
    ensures u.Role == DefaultRole && u.IsActive && !u.EmailConfirmed && !u.IsDeleted
    ensures u.ConfirmationToken == Some(token)
    ensures HasEmail(u, dto.Email)
  {
    Text.ToLowerIdempotent(dto.Email);
    RegisteredUserAsWritten(dto, hash, token, id, now).(Email := Text.ToLower(dto.Email))
  }

  /** The confirmation mail: to the account's address, with the link that
      carries its token. */
  function ConfirmationMail(u: User): (m: Message)
    ensures m.To == u.Email && m.Subject == ConfirmSubject
  {
    Message(u.Email, ConfirmSubject,
      "<a href='http://localhost:5000/api/auth/confirm-email?token=" + u.ConfirmationToken.GetOr("")
      + "'>Confirm your email</a>")
  }

  /** `UpdateUserAsync`'s edit: null name or email keeps the old value, the
      hash changes only for a non-empty new password, nothing else changes. */
  function Edited(u: User, dto: UpdateUserDto, newHash: string): (r: User)
    ensures r.Name == (if dto.Name.Some? then dto.Name.value else u.Name)
    ensures r.Email == (if dto.Email.Some? then dto.Email.value else u.Email)
    ensures r.PasswordHash == (if Text.IsNullOrEmpty(dto.NewPassword) then u.PasswordHash else newHash)
    ensures r == u.(Name := r.Name, Email := r.Email, PasswordHash := r.PasswordHash)
  {
    u.(Name := dto.Name.GetOr(u.Name),
       Email := dto.Email.GetOr(u.Email),
       PasswordHash := if Text.IsNullOrEmpty(dto.NewPassword) then u.PasswordHash else newHash)
  }

  /** What `AuthenticateAsync` answers once it has found `u`. */
  function AuthenticationVerdict(u: User, password: string, verify: (string, string) -> bool): (r: Option<User>)
    ensures r.Some? <==> verify(password, u.PasswordHash)
    ensures r.Some? ==> r.value == u
  {
    if verify(password, u.PasswordHash) then Some(u) else None
  }

  /** What `LoginAsync` answers once it has found `u`: the password is
      checked before the confirmation, and only a confirmed account with the
      right password gets a token. */
  function LoginVerdict(u: User, password: string, verify: (string, string) -> bool, issue: User -> string)
    : (r: Result<string>)
    ensures !verify(password, u.PasswordHash) ==> r == Failure(UnauthorizedAccess)
    ensures verify(password, u.PasswordHash) && !u.EmailConfirmed ==> r == Failure(InvalidOperation)
    ensures r.Success? <==> verify(password, u.PasswordHash) && u.EmailConfirmed
    ensures r.Success? ==> r.value == issue(u)
  {
    if !verify(password, u.PasswordHash) then Failure(UnauthorizedAccess)
    else if !u.EmailConfirmed then Failure(InvalidOperation)
    else Success(issue(u))
  }

  class UserService {
    const repository: UserRepository
    const outbox: Outbox

    constructor (repository: UserRepository, outbox: Outbox)
      ensures this.repository == repository && this.outbox == outbox
    {
      this.repository := repository;
      this.outbox := outbox;
    }

    /** `RegisterUserAsync`. `dtoValid` is the verdict of the `UserDto`
        validator; `hash` is `HashPassword(dto.Password)`, which `verify`
        accepts for that password, `token` the fresh confirmation token and
        `newId` the generated key. */
    method RegisterUser(dto: UserDto, dtoValid: bool, verify: (string, string) -> bool, hash: string,
                        token: string, newId: Guid, now: Time)
      returns (r: Result<User>)
      requires repository.Valid() && newId !in repository.users && verify(dto.Password, hash)
      modifies repository, outbox
      ensures repository.Valid()
      ensures !dtoValid ==>
        && r == Failure(Validation)
        && repository.users == old(repository.users) && outbox.sent == old(outbox.sent)
      ensures dtoValid && EmailTaken(old(repository.users), dto.Email) ==>
        && r == Failure(Argument)
        && repository.users == old(repository.users) && outbox.sent == old(outbox.sent)
      ensures dtoValid && !EmailTaken(old(repository.users), dto.Email) ==>
        && r == Success(RegisteredUser(dto, hash, token, newId, now))
        && repository.users == old(repository.users)[newId := r.value]
        && outbox.sent == old(outbox.sent) + [ConfirmationMail(r.value)]
        && EmailTaken(repository.users, dto.Email)
        && verify(dto.Password, repository.users[newId].PasswordHash)
    {
      if !dtoValid {
        return Failure(Validation);
      }
      var existing := repository.GetByEmail(dto.Email);
      if existing.Some? {
        return Failure(Argument);
      }
      var user := RegisteredUser(dto, hash, token, newId, now);
      var created := repository.Add(user);
      outbox.Send(ConfirmationMail(user));
      assert repository.users[newId] == user;
      r := Success(created);
    }

    /** `GetUserByIdAsync`. */
    method GetUserById(id: Guid) returns (r: Result<User>)
      ensures r.Failure? <==> repository.GetById(id).None?
      ensures r.Failure? ==> r.error == KeyNotFound
      ensures r.Success? ==> id in repository.users && r.value == repository.users[id] && Visible(r.value)
    {
      var user := repository.GetById(id);
      if user.None? {
        return Failure(KeyNotFound);
      }
      r := Success(user.value);
    }

    /** `UpdateUserAsync`; `newHash` is `HashPassword(dto.NewPassword)`,
        which `verify` accepts for that password. */
    method UpdateUser(id: Guid, dto: UpdateUserDto, verify: (string, string) -> bool, newHash: string)
      returns (r: Outcome)
      requires repository.Valid()
      requires !Text.IsNullOrEmpty(dto.NewPassword) ==> verify(dto.NewPassword.value, newHash)
      modifies repository
      ensures repository.Valid()
      ensures old(repository.GetById(id)).None? ==>
        r == Fail(KeyNotFound) && repository.users == old(repository.users)
      ensures old(repository.GetById(id)).Some? ==>
        && r == Pass
        && repository.users == old(repository.users)[id := Edited(old(repository.users)[id], dto, newHash)]
        && (!Text.IsNullOrEmpty(dto.NewPassword) ==> verify(dto.NewPassword.value, repository.users[id].PasswordHash))
    {
      var found := GetUserById(id);
      if found.Failure? {
        return Fail(found.error);
      }
      var user := found.value;
      user := user.(Name := dto.Name.GetOr(user.Name));
      user := user.(Email := dto.Email.GetOr(user.Email));
      if !Text.IsNullOrEmpty(dto.NewPassword) {
        user := user.(PasswordHash := newHash);
      }
      r := repository.Update(user);
    }

    /** `ChangePasswordAsync`; `newHash` is `HashPassword(dto.NewPassword)`,
        which `verify` accepts for that password. */
    method ChangePassword(userId: Guid, dto: ChangePasswordDto, verify: (string, string) -> bool, newHash: string)
      returns (r: Outcome)
      requires repository.Valid() && verify(dto.NewPassword, newHash)
      modifies repository
      ensures repository.Valid()
      ensures dto.NewPassword != dto.ConfirmPassword ==>
        r == Fail(Argument) && repository.users == old(repository.users)
      ensures dto.NewPassword == dto.ConfirmPassword && old(repository.GetById(userId)).None? ==>
        r == Fail(KeyNotFound) && repository.users == old(repository.users)
      ensures dto.NewPassword == dto.ConfirmPassword && old(repository.GetById(userId)).Some?
              && !verify(dto.OldPassword, old(repository.users)[userId].PasswordHash) ==>
        r == Fail(UnauthorizedAccess) && repository.users == old(repository.users)
      ensures dto.NewPassword == dto.ConfirmPassword && old(repository.GetById(userId)).Some?
              && verify(dto.OldPassword, old(repository.users)[userId].PasswordHash) ==>
        && r == Pass
        && repository.users == old(repository.users)[userId := old(repository.users)[userId].(PasswordHash := newHash)]
        && verify(dto.NewPassword, repository.users[userId].PasswordHash)
    {
      if dto.NewPassword != dto.ConfirmPassword {
        return Fail(Argument);
      }
      var found := GetUserById(userId);
      if found.Failure? {
        return Fail(found.error);
      }
      var user := found.value;
      if !verify(dto.OldPassword, user.PasswordHash) {
        return Fail(UnauthorizedAccess);
      }
      user := user.(PasswordHash := newHash);
      r := repository.Update(user);
    }

    /** `AuthenticateAsync`: null for an unknown address, otherwise the
        verdict on the account the lookup found. */
    method Authenticate(email: string, password: string, verify: (string, string) -> bool)
      returns (r: Option<User>)
      requires repository.Valid()
      ensures !EmailTaken(repository.users, email) ==> r == None
      ensures EmailTaken(repository.users, email) ==>
        exists id :: id in repository.users && HasEmail(repository.users[id], email)
          && r == AuthenticationVerdict(repository.users[id], password, verify)
    {
      var user := repository.GetByEmail(email);
      if user.None? {
        return None;
      }
      if !verify(password, user.value.PasswordHash) {
        return None;
      }
      r := user;
      assert r == AuthenticationVerdict(repository.users[user.value.Id], password, verify);
    }

    /** `LoginAsync`: `issue` is `GenerateJwtToken`. */
    method Login(dto: LoginDto, verify: (string, string) -> bool, issue: User -> string)
      returns (r: Result<string>)
      requires repository.Valid()
      ensures !EmailTaken(repository.users, dto.Email) ==> r == Failure(UnauthorizedAccess)
      ensures EmailTaken(repository.users, dto.Email) ==>
        exists id :: id in repository.users && HasEmail(repository.users[id], dto.Email)
          && r == LoginVerdict(repository.users[id], dto.Password, verify, issue)
    {
      var user := repository.GetByEmail(dto.Email);
      if user.None? || !verify(dto.Password, user.value.PasswordHash) {
        return Failure(UnauthorizedAccess);
      }
      if !user.value.EmailConfirmed {
        return Failure(InvalidOperation);
      }
      r := Success(issue(user.value));
    }

    /** `GetAllUsersAsync`. */
    method GetAllUsers() returns (r: Table)
      ensures forall id :: id in r <==> id in repository.users && Visible(repository.users[id])
      ensures forall id :: id in r ==> r[id] == repository.users[id]
    {
      r := repository.GetAll();
    }
  }
}
