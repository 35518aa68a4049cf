/** `UserRepository`: the user table behind the global query filter
    `HasQueryFilter(u => u.IsActive)`, with soft deletion, the lookups and
    the field-copying update. */
module UserRepositories {
  import opened Common
  import opened UserEntity
  import Text

  /** The `users` table, keyed by user id. */
  type Table = map<Guid, User>

  predicate KeysMatch(t: Table) {
    forall id :: id in t ==> t[id].Id == id
  }

  /** A row that a default query sees: the global filter keeps active users,
      the repository's own condition keeps those not deleted. */
  predicate Visible(u: User) {
    u.IsActive && !u.IsDeleted
  }

  /** The condition of `GetByEmailAsync(email)`: the key is lower-cased, the
      stored address is compared as it is. */
  predicate HasEmail(u: User, email: string) {
    Visible(u) && u.Email == Text.ToLower(email)
  }

  /** The condition of `GetByConfirmationTokenAsync(token)`. */
  predicate HoldsConfirmationToken(u: User, token: string) {
    Visible(u) && u.ConfirmationToken == Some(token) && !u.EmailConfirmed
  }

  /** The condition of `GetByPasswordResetTokenAsync(token)`; the expiry is
      not looked at. */
  predicate HoldsResetToken(u: User, token: string) {
    Visible(u) && u.PasswordResetToken == Some(token)
  }

  predicate EmailTaken(t: Table, email: string) {
    exists id :: id in t && HasEmail(t[id], email)
  }

  predicate ConfirmationTokenHeld(t: Table, token: string) {
    exists id :: id in t && HoldsConfirmationToken(t[id], token)
  }

  predicate ResetTokenHeld(t: Table, token: string) {
    exists id :: id in t && HoldsResetToken(t[id], token)
  }

  /** `UpdateAsync`'s copy of `from` onto the stored `existing` row: every
      field comes from `from` except the id, the creation time and the
      deletion flag, which stay as stored. */
  function Updated(existing: User, from: User): (u: User)
    ensures u == from.(Id := existing.Id, CreatedAt := existing.CreatedAt, IsDeleted := existing.IsDeleted)
  {
    existing.(
      Name := from.Name,
      Email := from.Email,
      PasswordHash := from.PasswordHash,
      Role := from.Role,
      IsActive := from.IsActive,
      EmailConfirmed := from.EmailConfirmed,
      ConfirmationToken := from.ConfirmationToken,
      PasswordResetToken := from.PasswordResetToken,
      PasswordResetExpires := from.PasswordResetExpires)
  }

  /** `SoftDeleteAsync(id)`: only a visible row is found, so an absent,
      inactive or already deleted id is left alone. */
  function SoftDeleted(t: Table, id: Guid): (r: Table)
    ensures r.Keys == t.Keys
    ensures id in t && Visible(t[id]) ==> r[id] == t[id].(IsDeleted := true)
    ensures !(id in t && Visible(t[id])) ==> r == t
    ensures forall k :: k in t && k != id ==> r[k] == t[k]
  {
    if id in t && Visible(t[id]) then t[id := t[id].(IsDeleted := true)] else t
  }

  /** `RestoreAsync(id)`: the filters are ignored, so any row with the id is
      undeleted; an absent id is left alone. */
  function Restored(t: Table, id: Guid): (r: Table)
    ensures r.Keys == t.Keys
    ensures id in t ==> r[id] == t[id].(IsDeleted := false)
    ensures forall k :: k in t && k != id ==> r[k] == t[k]
  {
    if id in t then t[id := t[id].(IsDeleted := false)] else t
  }

  /** Soft-deleting twice is soft-deleting once. */
  lemma SoftDeleteIdempotent(t: Table, id: Guid)
    ensures SoftDeleted(SoftDeleted(t, id), id) == SoftDeleted(t, id)
  {
  }

  /** Restoring undoes a soft deletion of a live row. */
  lemma RestoreUndoesSoftDelete(t: Table, id: Guid)
    requires id in t && !t[id].IsDeleted
    ensures Restored(SoftDeleted(t, id), id) == t
  {
  }

  /** An inactive user is hidden from `SoftDeleteAsync` and so cannot be
      soft-deleted, while `RestoreAsync` still reaches a deleted inactive user. */
  lemma InactiveUserEscapesSoftDelete(t: Table, id: Guid)
    requires id in t && !t[id].IsActive
    ensures SoftDeleted(t, id) == t
    ensures !Restored(t, id)[id].IsDeleted
  {
  }

  class UserRepository {
    var users: Table

    ghost predicate Valid()
      reads this
    {
      KeysMatch(users)
    }

    constructor (initial: Table)
      requires KeysMatch(initial)
      ensures Valid() && users == initial
    {
      users := initial;
    }

    /** `GetByIdAsync`: a visible user with that id, or null. */
    function GetById(id: Guid): (r: Option<User>)
      reads this
      ensures r.Some? <==> id in users && Visible(users[id])
      ensures r.Some? ==> r.value == users[id] && r.value.IsActive && !r.value.IsDeleted
    {
      if id in users && Visible(users[id]) then Some(users[id]) else None
    }

    /** `ExistsAsync`: agrees with `GetByIdAsync`. */
    function Exists(id: Guid): (b: bool)
      reads this
      ensures b <==> GetById(id).Some?
    {
      id in users && !users[id].IsDeleted && users[id].IsActive
    }

    /** `GetAllAsync`: every visible user. */
    function GetAll(): (r: Table)
      reads this
      ensures forall id :: id in r <==> id in users && Visible(users[id])
      ensures forall id :: id in r ==> r[id] == users[id]
    {
      map id | id in users && Visible(users[id]) :: users[id]
    }

    /** `GetByEmailAsync`: some visible user whose stored address equals the
        lower-cased key, or null when there is none. */
    method GetByEmail(email: string) returns (r: Option<User>)
      requires Valid()
      ensures r.Some? ==> r.value.Id in users && users[r.value.Id] == r.value && HasEmail(r.value, email)
      ensures r.None? <==> !EmailTaken(users, email)
    {
      if id :| id in users && HasEmail(users[id], email) {
        r := Some(users[id]);
      } else {
        r := None;
      }
    }

    /** `GetByConfirmationTokenAsync`: some visible, unconfirmed user holding
        the token, or null. */
    method GetByConfirmationToken(token: string) returns (r: Option<User>)
      requires Valid()
      ensures r.Some? ==> r.value.Id in users && users[r.value.Id] == r.value && HoldsConfirmationToken(r.value, token)
      ensures r.None? <==> !ConfirmationTokenHeld(users, token)
    {
      if id :| id in users && HoldsConfirmationToken(users[id], token) {
        r := Some(users[id]);
      } else {
        r := None;
      }
    }

    /** `GetByPasswordResetTokenAsync`: some visible user holding the reset
        token, expired or not, or null. */
    method GetByPasswordResetToken(token: string) returns (r: Option<User>)
      requires Valid()
      ensures r.Some? ==> r.value.Id in users && users[r.value.Id] == r.value && HoldsResetToken(r.value, token)
      ensures r.None? <==> !ResetTokenHeld(users, token)
    {
      if id :| id in users && HoldsResetToken(users[id], token) {
        r := Some(users[id]);
      } else {
        r := None;
      }
    }

    /** `AddAsync`: the new row under the key generated for it. */
    method Add(user: User) returns (r: User)
      requires Valid() && user.Id !in users
      modifies this
      ensures Valid() && r == user
      ensures users == old(users)[user.Id := user]
    {
      users := users[user.Id := user];
      r := user;
    }

    /** `SoftDeleteAsync`. */
    method SoftDelete(id: Guid)
      requires Valid()
      modifies this
      ensures Valid()
      ensures users == SoftDeleted(old(users), id)
    {
      var user := GetById(id);
      if user.Some? {
        users := users[id := user.value.(IsDeleted := true)];
      }
    }

    /** `RestoreAsync`, which bypasses the query filters. */
    method Restore(id: Guid)
      requires Valid()
      modifies this
      ensures Valid()
      ensures users == Restored(old(users), id)
    {
      if id in users {
        users := users[id := users[id].(IsDeleted := false)];
      }
    }

    /** `UpdateAsync`: throws `KeyNotFoundException` unless a visible user has
        the id, and otherwise copies the updatable fields onto it. */
    method Update(user: User) returns (r: Outcome)
      requires Valid()
      modifies this
      ensures Valid()
      ensures old(GetById(user.Id)).None? ==> r == Fail(KeyNotFound) && users == old(users)
      ensures old(GetById(user.Id)).Some? ==>
        r == Pass && users == old(users)[user.Id := Updated(old(users)[user.Id], user)]
    {
      var existing := GetById(user.Id);
      if existing.None? {
        return Fail(KeyNotFound);
      }
      users := users[user.Id := Updated(existing.value, user)];
      r := Pass;
    }
  }
}
