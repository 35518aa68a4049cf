/** The `User` entity of the identity service. */
module UserEntity {
  import opened Common

  /** A stored account. The password is kept only as its hash. */
  datatype User = User(
    Id: Guid,
    Name: string,
    Email: string,
    PasswordHash: string,
    Role: string,
    EmailConfirmed: bool,
    IsActive: bool,
    IsDeleted: bool,
    CreatedAt: Time,
    ConfirmationToken: Option<string>,
    PasswordResetToken: Option<string>,
    PasswordResetExpires: Option<Time>)

  const DefaultRole := "User"

  /** `new User()` at time `now`: empty strings, role "User", active, neither
      confirmed nor deleted, and no tokens. */
  function NewUser(now: Time): (u: User)
    ensures u.Name == "" && u.Email == "" && u.PasswordHash == ""
    ensures u.Role == DefaultRole && u.IsActive
    ensures !u.EmailConfirmed && !u.IsDeleted
    ensures u.ConfirmationToken == None && u.PasswordResetToken == None && u.PasswordResetExpires == None
    ensures u.Id == EmptyGuid && u.CreatedAt == now
  {
    User(EmptyGuid, "", "", "", DefaultRole, false, true, false, now, None, None, None)
  }
}

/** Request bodies of the identity service, with the fields the services read. */
module UserDtos {
  import opened Common

  datatype UserDto = UserDto(Name: string, Email: string, Password: string)

  datatype LoginDto = LoginDto(Email: string, Password: string)

  /** A null field is left unchanged by the update. */
  datatype UpdateUserDto = UpdateUserDto(Name: Option<string>, Email: Option<string>, NewPassword: Option<string>)

  datatype ChangePasswordDto = ChangePasswordDto(OldPassword: string, NewPassword: string, ConfirmPassword: string)

  datatype ResetPasswordDto = ResetPasswordDto(Token: string, NewPassword: string, ConfirmPassword: string)
}

/** The mail sender, seen only through the messages it was asked to send. */
module Mail {

  datatype Message = Message(To: string, Subject: string, Body: string)

  class Outbox {
    var sent: seq<Message>

    constructor ()
      ensures sent == []
    {
      sent := [];
    }

    /** `IEmailService.SendEmailAsync(to, subject, body)`. */
    method Send(m: Message)
      modifies this
      ensures sent == old(sent) + [m]
    {
      sent := sent + [m];
    }
  }
}
