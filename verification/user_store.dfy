/** The `users` table and the statements on it (the files under infra/src/db/user). */
module UserStore {
  import opened Common
  import opened Primitives
  import opened Tables
  import opened EmailAddress
  import opened Users

  /** A row: the user and the password hash stored beside it. */
  datatype UserRow = UserRow(user: User, passwordHash: string)

  type UserTable = seq<UserRow>

  function UserKey(row: UserRow): Uuid {
    row.user.id
  }

  /** `id` is the primary key. */
  ghost predicate Valid(t: UserTable) {
    DistinctKeys(t, UserKey)
  }

  predicate Selects(ident: UniqueUserIdentifier, row: UserRow) {
    Identifies(ident, row.user)
  }

  function UserMissing(ident: UniqueUserIdentifier): string {
    "User (" + IdentifierText(ident) + ") doesn't exist!"
  }

  /** `get_user`: the first row the identifier selects; `NotFound` "User (…) doesn't exist!"
      when none does; `Internal` on a database failure. Reads only. */
  function GetUser(t: UserTable, ident: UniqueUserIdentifier, fault: Fault): (r: Result<User>)
    ensures r.Ok? ==> fault.None? && exists row :: row in t && Selects(ident, row) && row.user == r.value
    ensures r.Ok? ==> Identifies(ident, r.value)
    ensures fault.None? && (exists row :: row in t && Selects(ident, row)) ==> r.Ok?
    ensures fault.None? && (forall row :: row in t ==> !Selects(ident, row)) ==> r == Err(Plain(NotFoundKind, UserMissing(ident)))
    ensures fault.Some? ==> r == Err(WithPrivate(InternalKind, "Failed to retrieve user (" + IdentifierText(ident) + ")!", fault.value))
  {
    if fault.Some? then Err(WithPrivate(InternalKind, "Failed to retrieve user (" + IdentifierText(ident) + ")!", fault.value))
    else match FirstWhere(t, row => Selects(ident, row))
      case None => Err(Plain(NotFoundKind, UserMissing(ident)))
      case Some(row) => Ok(row.user)
  }

  /** With the primary key in force, a lookup by a stored user's id returns that user. */
  lemma GetUserByIdIsExact(t: UserTable, row: UserRow)
    requires Valid(t) && row in t
    ensures GetUser(t, ById(row.user.id), None) == Ok(row.user)
  {
    assert Selects(ById(row.user.id), row);
    var r := GetUser(t, ById(row.user.id), None);
    var found :| found in t && Selects(ById(row.user.id), found) && found.user == r.value;
    var i :| 0 <= i < |t| && t[i] == row;
    var j :| 0 <= j < |t| && t[j] == found;
    assert UserKey(t[i]) == UserKey(t[j]);
    assert i == j by {
      if i < j || j < i {
        assert false;
      }
    }
  }

  /** `get_user_password_hash`: as `get_user`, returning the stored hash. */
  function GetUserPasswordHash(t: UserTable, ident: UniqueUserIdentifier, fault: Fault): (r: Result<string>)
    ensures r.Ok? ==> fault.None? && exists row :: row in t && Selects(ident, row) && row.passwordHash == r.value
    ensures fault.None? && (exists row :: row in t && Selects(ident, row)) ==> r.Ok?
    ensures fault.None? && (forall row :: row in t ==> !Selects(ident, row)) ==> r == Err(Plain(NotFoundKind, UserMissing(ident)))
    ensures fault.Some? ==> r == Err(WithPrivate(InternalKind, "Failed to retrieve user (" + IdentifierText(ident) + ") password hash!", fault.value))
  {
    if fault.Some? then Err(WithPrivate(InternalKind, "Failed to retrieve user (" + IdentifierText(ident) + ") password hash!", fault.value))
    else match FirstWhere(t, row => Selects(ident, row))
      case None => Err(Plain(NotFoundKind, UserMissing(ident)))
      case Some(row) => Ok(row.passwordHash)
  }

  /** `COALESCE(new, old)` on each column. */
  function ApplyUpdate(data: UpdateUserData, row: UserRow): (r: UserRow)
    ensures r.user.id == row.user.id && r.user.createdAt == row.user.createdAt && r.user.updatedAt == row.user.updatedAt
    ensures r.user.email == (if data.email.Some? then data.email.value else row.user.email)
    ensures r.passwordHash == (if data.passwordHash.Some? then data.passwordHash.value else row.passwordHash)
  {
    var email := match data.email case Some(e) => e case None => row.user.email;
    var hash := match data.passwordHash case Some(h) => h case None => row.passwordHash;
    UserRow(row.user.(email := email), hash)
  }

  const NothingToUpdate: string := "No fields to update!"

  /** `update_user`: an update with no field set is `BadRequest` before the database is touched.
      Otherwise every selected row takes the set fields and keeps the others, and the first
      updated row is returned; no selected row is `NotFound`; a database failure is `Internal`. */
  function UpdateUser(t: UserTable, ident: UniqueUserIdentifier, data: UpdateUserData, fault: Fault): (o: Outcome<UserTable, User>)
    ensures data.email.None? && data.passwordHash.None? ==> o == Outcome(t, Err(Plain(BadRequestKind, NothingToUpdate)))
    ensures o.result.Ok? <==>
      (data.email.Some? || data.passwordHash.Some?) && fault.None? && exists row :: row in t && Selects(ident, row)
    ensures o.result.Err? ==> o.state == t
    ensures (data.email.Some? || data.passwordHash.Some?) && fault.None? && (forall row :: row in t ==> !Selects(ident, row)) ==>
      o.result == Err(Plain(NotFoundKind, UserMissing(ident)))
    ensures (data.email.Some? || data.passwordHash.Some?) && fault.Some? ==>
      o.result == Err(WithPrivate(InternalKind, "Failed to update user (" + IdentifierText(ident) + ")!", fault.value))
    ensures o.result.Ok? ==> |o.state| == |t| && forall i :: 0 <= i < |t| ==>
      o.state[i] == (if Selects(ident, t[i]) then ApplyUpdate(data, t[i]) else t[i])
    ensures o.result.Ok? ==> exists row :: row in t && Selects(ident, row) && o.result.value == ApplyUpdate(data, row).user
    ensures Valid(t) ==> Valid(o.state)
  {
    if data.email.None? && data.passwordHash.None? then Outcome(t, Err(Plain(BadRequestKind, NothingToUpdate)))
    else if fault.Some? then Outcome(t, Err(WithPrivate(InternalKind, "Failed to update user (" + IdentifierText(ident) + ")!", fault.value)))
    else match FirstWhere(t, row => Selects(ident, row))
      case None => Outcome(t, Err(Plain(NotFoundKind, UserMissing(ident))))
      case Some(first) =>
        var t' := UpdateWhere(t, row => Selects(ident, row), row => ApplyUpdate(data, row));
        assert Valid(t) ==> Valid(t') by {
          forall i, j | 0 <= i < j < |t'|
            ensures UserKey(t[i]) == UserKey(t'[i]) && UserKey(t[j]) == UserKey(t'[j])
          {
          }
        }
        Outcome(t', Ok(ApplyUpdate(data, first).user))
  }

  /** `delete_user`: delete every selected row. The not-found and database-failure errors carry
      the same public text, "Failed to delete user (…)!". */
  function DeleteUser(t: UserTable, ident: UniqueUserIdentifier, fault: Fault): (o: Outcome<UserTable, Unit>)
    ensures o.result.Ok? <==> fault.None? && exists row :: row in t && Selects(ident, row)
    ensures o.result.Err? ==> o.state == t
    ensures o.result.Err? ==> o.result.error.base.publicInfo == "Failed to delete user (" + IdentifierText(ident) + ")!"
    ensures fault.Some? ==> KindOf(o.result.error) == InternalKind && o.result.error.base.privateInfo == fault
    ensures fault.None? && (forall row :: row in t ==> !Selects(ident, row)) ==> o.result.Err? && KindOf(o.result.error) == NotFoundKind
    ensures o.result.Ok? ==> forall row :: row in o.state <==> row in t && !Selects(ident, row)
    ensures Valid(t) ==> Valid(o.state)
  {
    var message := "Failed to delete user (" + IdentifierText(ident) + ")!";
    if fault.Some? then Outcome(t, Err(WithPrivate(InternalKind, message, fault.value)))
    else if |Select(t, row => Selects(ident, row))| == 0 then
      assert forall row :: row in t ==> !Selects(ident, row);
      Outcome(t, Err(Plain(NotFoundKind, message)))
    else
      var kept := Remove(t, row => Selects(ident, row));
      assert Select(t, row => Selects(ident, row))[0] in t;
      assert Valid(t) ==> Valid(kept) by {
        if Valid(t) {
          RemoveKeepsDistinct(t, row => Selects(ident, row), UserKey);
        }
      }
      Outcome(kept, Ok(Unit))
  }

  const CreateUserFailed: string := "Failed to create user!"

  /** `create_user`: insert a row for the new email and hash; the id and both timestamps are the
      database defaults, here the parameters `freshId` and `now`. */
  function CreateUser(t: UserTable, data: CreateUserData, freshId: Uuid, now: Instant, fault: Fault): (o: Outcome<UserTable, User>)
    ensures o.result.Ok? <==> fault.None? && !HasKey(t, UserKey, freshId)
    ensures o.result.Ok? ==> o.result.value == User(freshId, data.email, now, now)
    ensures o.result.Ok? ==> o.state == t + [UserRow(o.result.value, data.passwordHash)]
    ensures o.result.Err? ==> o.state == t && KindOf(o.result.error) == InternalKind && o.result.error.base.publicInfo == CreateUserFailed
    ensures Valid(t) ==> Valid(o.state)
  {
    if fault.Some? then Outcome(t, Err(WithPrivate(InternalKind, CreateUserFailed, fault.value)))
    else if HasKey(t, UserKey, freshId) then Outcome(t, Err(WithPrivate(InternalKind, CreateUserFailed, DuplicateKeyReason)))
    else
      var row := UserRow(User(freshId, data.email, now, now), data.passwordHash);
      assert Valid(t) ==> Valid(t + [row]) by {
        if Valid(t) {
          AppendKeepsDistinct(t, UserKey, row);
        }
      }
      Outcome(t + [row], Ok(row.user))
  }
}
