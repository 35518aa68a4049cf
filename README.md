# Inno_shop core: product and user tables with soft deletion

A Dafny model of the two record tables of the Inno_shop microservices and the
service rules that read and update them.

- **Product catalog.** `ProductRepository` keeps a table from product id to
  `Product` with a soft-delete flag. It answers the filtered catalog query
  and soft-deletes or restores one product, or every product of one owner.
  `ProductService` adds the create path (user-status probe first, then
  `ProductDtoValidator`), the owner guards on update and delete, the
  null-coalescing update, and `SyncUserStatusAsync`, which maps a user's
  active flag to the two bulk operations.
- **Identity.** `UserRepository` keeps a table from user id to `User`.
  Every default query is behind the global filter `IsActive` and the
  repository's own `!IsDeleted`; only `RestoreAsync` bypasses them.
  `UserService` and `AuthService` add registration, login,
  profile and password changes, and single-use email-confirmation tokens.

Layout: `common.dfy` (ids, time, `Option`, the exceptions as an `Error`
value), `text.dfy` (the .NET string operations used), `product.dfy`,
`product_dto_validator.dfy`, `product_repository.dfy`,
`product_service.dfy`, `user.dfy` (entity, DTOs, mail outbox),
`user_repository.dfy`, `user_service.dfy`, `auth_service.dfy`.

The tables are `map` fields of the repository classes. The bulk
operations are loops that update one selected row at a time. Each
repository and service method states its new table as a function of the old
one. The lemmas about those functions give the properties: bulk
deactivation is idempotent, deactivating and then reactivating restores every
product of the owner, non-owners cannot mutate, and nothing else changes.

Foreign and nondeterministic pieces are inputs of the model:
- the answer of the user service's status endpoint is `userActive`;
- the `UserDto` validator's verdict is `dtoValid`;
- `BCrypt.Verify` is a function parameter `verify`, and `BCrypt.HashPassword` results are inputs;
- `GenerateJwtToken` is a function parameter `issue`;
- generated keys (`newId`, required to be unused), tokens and `DateTime.UtcNow` (`now`) are inputs;
- email delivery is an `Outbox` that records each message it is asked to send.

## Source inconsistencies

Where the code cannot compile as written, the model follows the evident
intent:
- `GetProductsAsync` (ProductService/src/ProductService.Application/Services/ProductService.cs:60-65) passes four arguments to the
  five-parameter `GetFilteredProductsAsync`, so the availability filter is
  never forwarded. `ProductServices.ProductService.GetProducts` forwards all
  five.
- `UpdateProductAsync` assigns `UpdatedAt` (line 82), which `Product`
  does not declare. The model gives `Product` a nullable `UpdatedAt`,
  absent on creation.
- `CreateProductAsync` returns the result of `AddAsync` (line 48), which
  returns no value. The model returns the created product.

## Model

| member | source | states |
|---|---|---|
| Text.Contains | ProductService/src/ProductService.Infrastructure/Repositories/ProductRepository.cs:38-40 | the ordinal `string.Contains`: a term longer than the text is never contained, and a prefix of the text always is |
| Text.ContainsIffOccurs | ProductService/src/ProductService.Infrastructure/Repositories/ProductRepository.cs:38-40 | the recursive `Contains` used by the search filter holds exactly when the term occurs at some position |
| Text.ToLower | UserService/src/UserService.Infrastructure/Repositories/UserRepository.cs:40 | `email.ToLower()` keeps the length of the string |
| Text.ToLowerIsPointwise | UserService/src/UserService.Infrastructure/Repositories/UserRepository.cs:40 | `ToLower` keeps the length and lower-cases each character in place |
| Text.ToLowerIdempotent | UserService/src/UserService.Infrastructure/Repositories/UserRepository.cs:40 | lower-casing twice equals lowering once, so a lower-case stored email matches its lookup key |
| Text.UpperCaseIsNotLowered | UserService/src/UserService.Infrastructure/Repositories/UserRepository.cs:40 | a string containing an upper-case ASCII letter differs from its lower-case form |
| ProductEntity.NewProduct | ProductService/src/ProductService.Domain/Entities/Product.cs:3-15 | a new product has the given name, no description, is active and not deleted, and has the default price, availability and ids |
| ProductDtoValidation.Validate | ProductService/src/ProductService.Application/Validators/ProductDtoValidator.cs:7-11 | NameEmpty is reported iff the name is null or blank; NameTooLong iff the name has over 100 characters; PriceNotGreaterThanZero iff price <= 0 |
| ProductDtoValidation.ValidIff | ProductService/src/ProductService.Application/Validators/ProductDtoValidator.cs:9-10 | a DTO is valid iff its name is present, not blank and at most 100 long and its price is > 0; Description and IsAvailable are unconstrained |
| ProductDtoValidation.ZeroPriceRejected | ProductService/src/ProductService.Application/Validators/ProductDtoValidator.cs:10 | a zero price is always rejected |
| ProductDtoValidation.LongBlankNameFailsBothRules | ProductService/src/ProductService.Application/Validators/ProductDtoValidator.cs:9 | every blank name of over 100 characters fails NotEmpty and MaximumLength together, in rule order, and a price failure is added iff price <= 0 |
| ProductRepositories.Filtered | ProductService/src/ProductService.Infrastructure/Repositories/ProductRepository.cs:23-59 | the query returns table rows, none deleted, all inside the inclusive price bounds and matching availability, owner and a non-blank search term; every live row passing all filters is returned |
| ProductRepositories.NoFilterListsAllLive | ProductService/src/ProductService.Infrastructure/Repositories/ProductRepository.cs:30-33 | with every filter null, exactly the non-deleted rows are listed |
| ProductRepositories.BlankSearchIsNoSearch | ProductService/src/ProductService.Infrastructure/Repositories/ProductRepository.cs:36-41 | a null, empty or white-space search term filters nothing |
| ProductRepositories.SearchByOwnNameFinds | ProductService/src/ProductService.Infrastructure/Repositories/ProductRepository.cs:36-41 | searching for a live product's own name lists it when the other filters admit it |
| ProductRepositories.OwnerFilterNarrows | ProductService/src/ProductService.Infrastructure/Repositories/ProductRepository.cs:54-56 | adding an owner filter never lists more rows |
| ProductRepositories.OwnedWithFlag | ProductService/src/ProductService.Infrastructure/Repositories/ProductRepository.cs:63-65 | the bulk operations select exactly the owner's rows with the given deleted flag: live ones for soft-delete and deleted ones for restore (lines 77-80) |
| ProductRepositories.OwnerSoftDeleted | ProductService/src/ProductService.Infrastructure/Repositories/ProductRepository.cs:61-73 | after the bulk soft-delete every product of the owner is deleted, only the flag changed, other owners' rows are untouched |
| ProductRepositories.OwnerRestored | ProductService/src/ProductService.Infrastructure/Repositories/ProductRepository.cs:75-88 | after the bulk restore every product of the owner is live, including individually deleted ones, and other owners' rows are untouched |
| ProductRepositories.WithFlag | ProductService/src/ProductService.Infrastructure/Repositories/ProductRepository.cs:102-120 | single soft-delete/restore changes only that row's flag; an absent id changes nothing |
| ProductRepositories.OwnerSoftDeleteIdempotent | ProductService/src/ProductService.Infrastructure/Repositories/ProductRepository.cs:61-73 | a second bulk soft-delete changes nothing |
| ProductRepositories.OwnerRestoreIdempotent | ProductService/src/ProductService.Infrastructure/Repositories/ProductRepository.cs:75-88 | a second bulk restore changes nothing |
| ProductRepositories.DeactivateThenRestore | ProductService/src/ProductService.Infrastructure/Repositories/ProductRepository.cs:61-88 | soft-deleting then restoring an owner equals restoring that owner |
| ProductRepositories.DeactivateThenRestoreRoundTrip | ProductService/src/ProductService.Infrastructure/Repositories/ProductRepository.cs:61-88 | if none of the owner's rows was deleted before, soft-delete then restore gives back the original table |
| ProductRepositories.RestoreRevivesSingleDelete | ProductService/src/ProductService.Infrastructure/Repositories/ProductRepository.cs:75-88 | the bulk restore also undoes an individual soft-delete of the owner's product |
| ProductRepositories.DeactivatedOwnerIsUnlisted | ProductService/src/ProductService.Infrastructure/Repositories/ProductRepository.cs:30-73 | after an owner's bulk soft-delete, no filtered query lists any of their products |
| ProductRepositories.ProductRepository.constructor | ProductService/src/ProductService.Infrastructure/Repositories/ProductRepository.cs:11-14 | the repository starts over a key-consistent table |
| ProductRepositories.ProductRepository.GetById | ProductService/src/ProductService.Infrastructure/Repositories/ProductRepository.cs:16-21 | a product is found iff its id is stored, deleted or not |
| ProductRepositories.ProductRepository.GetFilteredProducts | ProductService/src/ProductService.Infrastructure/Repositories/ProductRepository.cs:23-59 | the result holds exactly the stored rows that match the query |
| ProductRepositories.ProductRepository.Add | ProductService/src/ProductService.Infrastructure/Repositories/ProductRepository.cs:90-94 | the new row is stored under its fresh key and nothing else changes |
| ProductRepositories.ProductRepository.Update | ProductService/src/ProductService.Infrastructure/Repositories/ProductRepository.cs:96-100 | the loaded row is overwritten and nothing else changes |
| ProductRepositories.ProductRepository.SoftDelete | ProductService/src/ProductService.Infrastructure/Repositories/ProductRepository.cs:102-110 | the new table is the old one with that row's flag set, or unchanged for an absent id |
| ProductRepositories.ProductRepository.Restore | ProductService/src/ProductService.Infrastructure/Repositories/ProductRepository.cs:112-120 | the new table is the old one with that row's flag cleared, or unchanged for an absent id |
| ProductRepositories.ProductRepository.SetFlagEach | ProductService/src/ProductService.Infrastructure/Repositories/ProductRepository.cs:67-70 | the loop sets the flag of exactly the selected rows |
| ProductRepositories.ProductRepository.SoftDeleteProductsByUserId | ProductService/src/ProductService.Infrastructure/Repositories/ProductRepository.cs:61-73 | the new table is the owner-soft-deleted old table |
| ProductRepositories.ProductRepository.RestoreProductsByUserId | ProductService/src/ProductService.Infrastructure/Repositories/ProductRepository.cs:75-88 | the new table is the owner-restored old table |
| ProductServices.CreatedProduct | ProductService/src/ProductService.Application/Services/ProductService.cs:36-45 | the new product is owned by the caller, not deleted, and copies Name, Description, Price and IsAvailable from the DTO |
| ProductServices.Merged | ProductService/src/ProductService.Application/Services/ProductService.cs:78-82 | Name and Description take the DTO value when non-null; Price and IsAvailable are always overwritten; Id, UserId, CreatedAt and IsDeleted are unchanged |
| ProductServices.ProductService.constructor | ProductService/src/ProductService.Application/Services/ProductService.cs:16-26 | the service works on the given repository |
| ProductServices.ProductService.CreateProduct | ProductService/src/ProductService.Application/Services/ProductService.cs:28-49 | a failed status probe throws InvalidOperation before validation and adds nothing; invalid DTO throws Validation and adds nothing; otherwise exactly the created product is added and returned |
| ProductServices.ProductService.GetProductById | ProductService/src/ProductService.Application/Services/ProductService.cs:51-55 | throws KeyNotFound iff the id is absent, else returns the stored product |
| ProductServices.ProductService.GetProducts | ProductService/src/ProductService.Application/Services/ProductService.cs:57-66 | returns exactly the stored rows, with their stored values, that match the five forwarded filters |
| ProductServices.ProductService.UpdateProduct | ProductService/src/ProductService.Application/Services/ProductService.cs:68-86 | absent id throws KeyNotFound, a non-owner throws UnauthorizedAccess, both leaving the table unchanged; the owner's update replaces only that row by its merge |
| ProductServices.ProductService.SoftDeleteProduct | ProductService/src/ProductService.Application/Services/ProductService.cs:88-100 | absent id throws KeyNotFound, a non-owner throws UnauthorizedAccess, both leaving the table unchanged; for the owner only that product becomes deleted |
| ProductServices.ProductService.SyncUserStatus | ProductService/src/ProductService.Application/Services/ProductService.cs:102-110 | inactive maps to the bulk soft-delete and active to the bulk restore |
| ProductServices.SyncedTable | ProductService/src/ProductService.Application/Services/ProductService.cs:102-110 | after a sync every product of the user has IsDeleted = not isActive and other owners' rows are unchanged |
| ProductServices.LastSyncWins | ProductService/src/ProductService.Application/Services/ProductService.cs:102-110 | two syncs in a row end in the state of the second alone, so sync(false) then sync(true) equals sync(true) |
| ProductServices.DeactivationScenario | ProductService/src/ProductService.Application/Services/ProductService.cs:102-110 | for an owner with two products: after deactivation the owner query lists nothing and both are found deleted; reactivation restores the table |
| UserEntity.NewUser | UserService/src/UserService.Domain/Entities/User.cs:7-21 | a new user has empty strings, role "User", IsActive true, EmailConfirmed and IsDeleted false, and no tokens |
| Mail.Outbox.constructor | UserService/src/UserService.Application/Interfaces/IEmailService.cs:3-7 | nothing has been sent yet |
| Mail.Outbox.Send | UserService/src/UserService.Application/Interfaces/IEmailService.cs:6 | exactly the one message is appended to what was sent |
| UserRepositories.Updated | UserService/src/UserService.Infrastructure/Repositories/UserRepository.cs:109-117 | the stored row takes every field from the argument except Id, CreatedAt and IsDeleted, which stay as stored |
| UserRepositories.SoftDeleted | UserService/src/UserService.Infrastructure/Repositories/UserRepository.cs:58-68 | only a visible row becomes deleted; an absent, inactive or already-deleted id leaves the table unchanged |
| UserRepositories.Restored | UserService/src/UserService.Infrastructure/Repositories/UserRepository.cs:70-81 | any row with the id, visible or not, becomes undeleted; an absent id changes nothing |
| UserRepositories.SoftDeleteIdempotent | UserService/src/UserService.Infrastructure/Repositories/UserRepository.cs:58-68 | a second soft-delete changes nothing |
| UserRepositories.RestoreUndoesSoftDelete | UserService/src/UserService.Infrastructure/Repositories/UserRepository.cs:58-81 | restoring after soft-deleting a live row gives back the table |
| UserRepositories.InactiveUserEscapesSoftDelete | UserService/src/UserService.Infrastructure/Data/UserServiceDbContext.cs:15 | the global IsActive filter hides an inactive user from soft-delete but not from restore |
| UserRepositories.UserRepository.constructor | UserService/src/UserService.Infrastructure/Repositories/UserRepository.cs:14-20 | the repository starts over a key-consistent table |
| UserRepositories.UserRepository.GetById | UserService/src/UserService.Infrastructure/Repositories/UserRepository.cs:22-35 | returns a user iff one with that id is active and not deleted |
| UserRepositories.UserRepository.Exists | UserService/src/UserService.Infrastructure/Repositories/UserRepository.cs:131-135 | holds iff GetById finds the user |
| UserRepositories.UserRepository.GetAll | UserService/src/UserService.Infrastructure/Repositories/UserRepository.cs:43-49 | returns exactly the visible users |
| UserRepositories.UserRepository.GetByEmail | UserService/src/UserService.Infrastructure/Repositories/UserRepository.cs:37-41 | returns a visible user whose stored email equals the lower-cased key, and null iff there is none |
| UserRepositories.UserRepository.GetByConfirmationToken | UserService/src/UserService.Infrastructure/Repositories/UserRepository.cs:142-150 | returns a visible unconfirmed holder of the token, and null iff there is none |
| UserRepositories.UserRepository.GetByPasswordResetToken | UserService/src/UserService.Infrastructure/Repositories/UserRepository.cs:122-129 | returns a visible holder of the reset token, with no expiry check, and null iff there is none |
| UserRepositories.UserRepository.Add | UserService/src/UserService.Infrastructure/Repositories/UserRepository.cs:51-56 | stores the user under its fresh key and returns it |
| UserRepositories.UserRepository.SoftDelete | UserService/src/UserService.Infrastructure/Repositories/UserRepository.cs:58-68 | the new table is the soft-deleted old table |
| UserRepositories.UserRepository.Restore | UserService/src/UserService.Infrastructure/Repositories/UserRepository.cs:70-81 | the new table is the restored old table |
| UserRepositories.UserRepository.Update | UserService/src/UserService.Infrastructure/Repositories/UserRepository.cs:103-120 | throws KeyNotFound and changes nothing unless a visible user has the id; otherwise only that row changes, by the field copy |
| UserServices.RegisteredUserAsWritten | UserService/src/UserService.Application/Services/UserService.cs:39-49 | as written, registration stores the email exactly as typed |
| UserServices.MixedCaseEmailEscapesDuplicateCheck | UserService/src/UserService.Application/Services/UserService.cs:36-49 | a stored "Ann@x.io" is not found by the duplicate check for "Ann@x.io" |
| UserServices.RegisteredUser | UserService/src/UserService.Application/Services/UserService.cs:39-49 | the new user has role "User", is active, unconfirmed, holds the confirmation token, and is found by the email it registered with |
| UserServices.ConfirmationMail | UserService/src/UserService.Application/Services/UserService.cs:53-56 | the mail goes to the user's address with subject "Confirm your email" |
| UserServices.Edited | UserService/src/UserService.Application/Services/UserService.cs:81-87 | Name and Email change only when the DTO value is non-null and the hash only for a non-empty new password; nothing else changes |
| UserServices.AuthenticationVerdict | UserService/src/UserService.Application/Services/UserService.cs:123-129 | the found user is returned iff the password verifies |
| UserServices.LoginVerdict | UserService/src/UserService.Application/Services/UserService.cs:136-142 | a bad password throws UnauthorizedAccess even for an unconfirmed email; a good one throws InvalidOperation for an unconfirmed email; only otherwise a token is issued |
| UserServices.UserService.constructor | UserService/src/UserService.Application/Services/UserService.cs:18-30 | the service works on the given repository and outbox |
| UserServices.UserService.RegisterUser | UserService/src/UserService.Application/Services/UserService.cs:32-59 | an invalid DTO or an email already found throw and change nothing; otherwise exactly the new user is added, exactly one confirmation mail is sent, the email is then taken, and the registered password verifies against the stored hash |
| UserServices.UserService.GetUserById | UserService/src/UserService.Application/Services/UserService.cs:61-65 | throws KeyNotFound iff the repository finds no visible user |
| UserServices.UserService.UpdateUser | UserService/src/UserService.Application/Services/UserService.cs:77-91 | throws KeyNotFound when the user is not visible; otherwise only that row changes, by the edit; a non-empty new password then verifies against the stored hash |
| UserServices.UserService.ChangePassword | UserService/src/UserService.Application/Services/UserService.cs:98-111 | mismatched new passwords throw Argument before any lookup; unknown user throws KeyNotFound; wrong old password throws UnauthorizedAccess; all three change nothing; otherwise only the hash changes and the new password verifies |
| UserServices.UserService.Authenticate | UserService/src/UserService.Application/Services/UserService.cs:113-130 | null for an unknown email; otherwise the verdict on a user holding the email |
| UserServices.UserService.Login | UserService/src/UserService.Application/Services/UserService.cs:132-143 | UnauthorizedAccess for an unknown email; otherwise the login verdict on a user holding the email |
| UserServices.UserService.GetAllUsers | UserService/src/UserService.Application/Services/UserService.cs:154-157 | returns exactly the visible users with their stored values |
| AuthServices.LoginVerdict | UserService/src/UserService.Application/Services/AuthService.cs:40-46 | a bad password and an unconfirmed email throw AuthException, the password checked first; only otherwise a token is issued |
| AuthServices.RegisteredUserAsWritten | UserService/src/UserService.Application/Services/AuthService.cs:56-63 | as written, registration stores the email exactly as typed, with empty name and default role and activity |
| AuthServices.MixedCaseEmailRegistersTwice | UserService/src/UserService.Application/Services/AuthService.cs:53-63 | a stored "Bo@y.io" is not found by the existence check for "Bo@y.io" |
| AuthServices.RegisteredUser | UserService/src/UserService.Application/Services/AuthService.cs:56-63 | the new user is unconfirmed, holds the token, keeps the default role, activity and empty name, and is found by its email |
| AuthServices.ConfirmationMail | UserService/src/UserService.Application/Services/AuthService.cs:115-124 | the mail goes to the user's address with the confirmation subject |
| AuthServices.Confirmed | UserService/src/UserService.Application/Services/AuthService.cs:76-77 | a confirmed user has EmailConfirmed set, no token, and holds no confirmation token any more |
| AuthServices.ConfirmationIsSingleUse | UserService/src/UserService.Application/Services/AuthService.cs:71-79 | after the only holder of a token is confirmed, nobody holds it, so a second confirmation throws |
| AuthServices.AuthService.constructor | UserService/src/UserService.Application/Services/AuthService.cs:24-34 | the service works on the given repository and outbox |
| AuthServices.AuthService.Login | UserService/src/UserService.Application/Services/AuthService.cs:36-47 | AuthException for an unknown email; otherwise the login verdict on a user holding the email |
| AuthServices.AuthService.Register | UserService/src/UserService.Application/Services/AuthService.cs:49-69 | an invalid DTO or an existing email throw and change nothing; otherwise exactly the new user is added and one confirmation mail is sent, the email is then taken, and the registered password verifies against the stored hash |
| AuthServices.AuthService.ConfirmEmail | UserService/src/UserService.Application/Services/AuthService.cs:71-79 | throws AuthException and changes nothing when no visible unconfirmed user holds the token; otherwise exactly one such holder is confirmed and nothing else changes |
| AuthServices.AuthService.ForgotPassword | UserService/src/UserService.Application/Services/AuthService.cs:80-83 | always throws NotImplemented |
| AuthServices.AuthService.ResetPassword | UserService/src/UserService.Application/Services/AuthService.cs:85-88 | always throws NotImplemented |

## Findings

| source | as written | input that shows it | evidently intended | confidence | as-written member | corrected member |
|---|---|---|---|---|---|---|
| UserService/src/UserService.Application/Services/UserService.cs:39-49 | registration stores `userDto.Email` as typed, but `GetByEmailAsync` (UserService/src/UserService.Infrastructure/Repositories/UserRepository.cs:40) compares the stored address with `email.ToLower()`, and PostgreSQL compares case-sensitively | registering "Ann@x.io" twice: the first account stores "Ann@x.io", the duplicate check looks for "ann@x.io" and passes, so a second account with the same address is created, and login by that address never finds either | store the address lower-cased, so that the duplicate check and login find it | not executed | UserServices.MixedCaseEmailEscapesDuplicateCheck | UserServices.RegisteredUser |
| UserService/src/UserService.Application/Services/AuthService.cs:56-63 | `RegisterAsync` stores `userDto.Email` as typed, while `GetByEmailAsync` (UserService/src/UserService.Infrastructure/Repositories/UserRepository.cs:40) looks up `email.ToLower()` | registering "Bo@y.io" twice: the "Email already exists" check does not find the first account, so a second one is created | store the address lower-cased | not executed | AuthServices.MixedCaseEmailRegistersTwice | AuthServices.RegisteredUser |

`UserServices.RegisteredUser` and `AuthServices.RegisteredUser` store the lower-cased address. `UserServices.UserService.RegisterUser` and `AuthServices.AuthService.Register` use them and prove that the email is taken afterwards.

## Left out

- Text.ToLower: lower-cases ASCII letters only; the culture-sensitive Unicode case mapping of `string.ToLower()` is not modelled.
- Text.IsWhiteSpace and ProductDtoValidation.Validate: strings are sequences of Unicode scalar values, so `MaximumLength` counts characters and not UTF-16 code units.
- ProductRepositories.ProductRepository.Update: requires a product that is already stored, because its one caller loads the product first. What Entity Framework does with an unknown key is not modelled.
- ProductServices.ProductService.CreateProduct: the status probe is a boolean. A transport failure, which throws an `HttpRequestException` rather than `InvalidOperationException`, is not told apart.
- UserUpdateDto, ChangePasswordDto and LoginDto are not part of this model. Their fields are taken from how the services use them.
- The `UserDto` validator is not part of this model; its verdict is the input `dtoValid`.
- `ProductDbContext` is not part of this model. No query filter on products is assumed, so `IgnoreQueryFilters` changes nothing.
- Which of several matching rows `FirstOrDefaultAsync` returns is not modelled. The lookups return some match, and the login and authentication results are stated for "some user holding the email".
- Key generation: Entity Framework's generated key is the input `newId`, required to be unused, because a freshly generated Guid is assumed unique.
- `UserRepository.ConfirmEmailAsync` and `UpdatePasswordAsync` change an entity loaded without tracking, so they do not persist. Their `UserService` wrapper `ConfirmEmailAsync(Guid)` is left out with them.
- `UserService.SoftDeleteUserAsync`, `RestoreUserAsync` and `GetUserByConfirmationToken` only forward to the repository members modelled above.
- `UserService.UpdateUserAsync` is modelled as written: it stores a new email as typed and does not check it for duplicates.
- `UpdateProductAsync` is modelled as written: it does not run the validator, so an owner can set a zero or negative price.
- Atomicity of `SaveChangesAsync`, concurrent requests, and the read-then-write race between the owner guard and the update are not modelled.
- Logging, exception messages other than those of `AuthException`, and the HTTP status each exception maps to are not modelled.
- Other parts of the system are not modelled:
  - controllers, filters, middleware and `Program.cs` wiring;
  - the message broker and `ProductDeletionConsumer`, which calls a method that no interface declares;
  - SMTP delivery;
  - JWT signing and secure token generation.
