/** The writers of user rows as the source has them: load an entity, assign its fields, save. */
module UserStoreObject {
  import opened Wrappers
  import opened SessionRevocation
  import opened Text

  /** The mask names a field whose change ends the user's sessions. */
  predicate TouchesSecurity(fields: set<Field>) {
    || HashedPassword in fields || Email in fields || Status in fields || Role in fields || IsDeleted in fields
    || TwoFactorEnabled in fields || TwoFactorSecret in fields || SuspendedUntil in fields
  }

  /** A masked update ends sessions only through the security fields: without them in the mask the security state and
      the invalidation time stay, and an update from the row as it is leaves every token's standing alone. */
  lemma HarmlessMask(row: UserRow, model: UserRow, fields: set<Field>, blankPassword: bool, stamp: Time, issuedAt: Time,
                     now: Time)
    requires !TouchesSecurity(fields)
    ensures var after := Save(row, row, Updated(row, model, fields, blankPassword, stamp));
            && !SecurityStateDiffers(row, after) && after.lastInvalidatedAt == row.lastInvalidatedAt
            && (ShouldRejectUserSession(Some(after), issuedAt, now) <==> ShouldRejectUserSession(Some(row), issuedAt, now))
  {}

  /** A loaded row: the writers assign its fields in place. */
  class UserEntity {
    var hashedPassword: string
    var email: string
    var profile: string
    var status: int
    var roleId: int
    var isDeleted: bool
    var twoFactorEnabled: bool
    var twoFactorSecret: Option<string>
    var twoFactorPendingSecret: Option<string>
    var suspendedUntil: Option<Time>
    var isEmailVerified: bool
    var lastInvalidatedAt: Option<Time>

    function Row(): UserRow
      reads this
    {
      UserRow(hashedPassword, email, profile, status, roleId, isDeleted, twoFactorEnabled, twoFactorSecret,
              twoFactorPendingSecret, suspendedUntil, isEmailVerified, lastInvalidatedAt)
    }

    constructor (row: UserRow)
      ensures Row() == row
    {
      hashedPassword, email, profile, status := row.hashedPassword, row.email, row.profile, row.status;
      roleId, isDeleted, twoFactorEnabled := row.roleId, row.isDeleted, row.twoFactorEnabled;
      twoFactorSecret, twoFactorPendingSecret := row.twoFactorSecret, row.twoFactorPendingSecret;
      suspendedUntil, isEmailVerified := row.suspendedUntil, row.isEmailVerified;
      lastInvalidatedAt := row.lastInvalidatedAt;
    }

    method AssignProfile(user: UserRow, fields: set<Field>, blankPassword: bool)
      modifies this`hashedPassword, this`email, this`profile, this`isEmailVerified
      ensures hashedPassword == if HashedPassword in fields && !blankPassword then user.hashedPassword else old(hashedPassword)
      ensures email == if Email in fields then user.email else old(email)
      ensures profile == if Profile in fields then user.profile else old(profile)
      ensures isEmailVerified == if IsEmailVerified in fields then user.isEmailVerified else old(isEmailVerified)
    {
      if HashedPassword in fields && !blankPassword {
        hashedPassword := user.hashedPassword;
      }
      if Email in fields { email := user.email; }
      if Profile in fields { profile := user.profile; }
      if IsEmailVerified in fields { isEmailVerified := user.isEmailVerified; }
    }

    method AssignStanding(user: UserRow, fields: set<Field>)
      modifies this`status, this`roleId, this`isDeleted, this`suspendedUntil
      ensures status == if Status in fields then user.status else old(status)
      ensures roleId == if Role in fields then user.roleId else old(roleId)
      ensures isDeleted == if IsDeleted in fields then user.isDeleted else old(isDeleted)
      ensures suspendedUntil == if SuspendedUntil in fields then user.suspendedUntil else old(suspendedUntil)
    {
      if Status in fields { status := user.status; }
      if Role in fields { roleId := user.roleId; }
      if IsDeleted in fields { isDeleted := user.isDeleted; }
      if SuspendedUntil in fields { suspendedUntil := user.suspendedUntil; }
    }

    method AssignTwoFactor(user: UserRow, fields: set<Field>)
      modifies this`twoFactorEnabled, this`twoFactorSecret, this`twoFactorPendingSecret
      ensures twoFactorEnabled == if TwoFactorEnabled in fields then user.twoFactorEnabled else old(twoFactorEnabled)
      ensures twoFactorSecret == if TwoFactorSecret in fields then user.twoFactorSecret else old(twoFactorSecret)
      ensures twoFactorPendingSecret ==
              if TwoFactorPendingSecret in fields then user.twoFactorPendingSecret else old(twoFactorPendingSecret)
    {
      if TwoFactorEnabled in fields { twoFactorEnabled := user.twoFactorEnabled; }
      if TwoFactorSecret in fields { twoFactorSecret := user.twoFactorSecret; }
      if TwoFactorPendingSecret in fields { twoFactorPendingSecret := user.twoFactorPendingSecret; }
    }

    method AssignMasked(user: UserRow, fields: set<Field>, blankPassword: bool)
      modifies this
      ensures Row() == Assign(old(Row()), user, fields, blankPassword)
    {
      AssignProfile(user, fields, blankPassword);
      AssignStanding(user, fields);
      AssignTwoFactor(user, fields);
    }

    /** Assigns the masked fields one by one; true exactly when that changed the account's security state. The
        invalidation time is left to the caller. */
    method ApplyUserUpdateFields(user: UserRow, fields: set<Field>, blankPassword: bool) returns (changed: bool)
      modifies this
      ensures Row() == Assign(old(Row()), user, fields, blankPassword)
      ensures changed <==> SecurityStateDiffers(old(Row()), Row())
      ensures changed <==>
              !(&& hashedPassword == old(hashedPassword) && SameIgnoringCase(old(email), email)
                && status == old(status) && roleId == old(roleId) && isDeleted == old(isDeleted)
                && twoFactorEnabled == old(twoFactorEnabled) && twoFactorSecret == old(twoFactorSecret)
                && suspendedUntil == old(suspendedUntil))
    {
      var original := Row();
      AssignMasked(user, fields, blankPassword);
      return original.hashedPassword != hashedPassword || !SameIgnoringCase(original.email, email)
        || original.status != status || original.roleId != roleId || original.isDeleted != isDeleted
        || original.twoFactorEnabled != twoFactorEnabled || original.twoFactorSecret != twoFactorSecret
        || original.suspendedUntil != suspendedUntil;
    }

    method ApplyDeletionState(utcNow: Time)
      modifies this
      ensures Row() == old(Row()).(isDeleted := true, lastInvalidatedAt := Some(utcNow))
    {
      isDeleted := true;
      lastInvalidatedAt := Some(utcNow);
    }

    method ApplySuspensionState(until: Option<Time>)
      modifies this
      ensures Row() == WithSuspension(old(Row()), until)
      ensures Row() == old(Row()).(status := if until.Some? then 1 else 2, suspendedUntil := until)
    {
      if until.Some? {
        status := ACTIVE;
        suspendedUntil := until;
      } else {
        status := BANNED;
        suspendedUntil := None;
      }
    }
  }

  /** Each column that the mask names has the new value, a blank password left out, and every other one the old value. */
  predicate MaskAssigned(before: UserRow, user: UserRow, fields: set<Field>, blankPassword: bool, after: UserRow) {
    && after.hashedPassword == (if HashedPassword in fields && !blankPassword then user else before).hashedPassword
    && after.email == (if Email in fields then user else before).email
    && after.profile == (if Profile in fields then user else before).profile
    && after.status == (if Status in fields then user else before).status
    && after.roleId == (if Role in fields then user else before).roleId
    && after.isDeleted == (if IsDeleted in fields then user else before).isDeleted
    && after.twoFactorEnabled == (if TwoFactorEnabled in fields then user else before).twoFactorEnabled
    && after.twoFactorSecret == (if TwoFactorSecret in fields then user else before).twoFactorSecret
    && after.twoFactorPendingSecret == (if TwoFactorPendingSecret in fields then user else before).twoFactorPendingSecret
    && after.suspendedUntil == (if SuspendedUntil in fields then user else before).suspendedUntil
    && after.isEmailVerified == (if IsEmailVerified in fields then user else before).isEmailVerified
  }

  /** Saving a row that nobody changed meanwhile stores it as it is in memory. */
  lemma SaveStores(read: UserRow, row: UserRow)
    ensures Save(read, read, row) == row
  {}

  lemma AssignMeaning(row: UserRow, user: UserRow, fields: set<Field>, blankPassword: bool)
    ensures MaskAssigned(row, user, fields, blankPassword, Assign(row, user, fields, blankPassword))
  {}

  lemma MaskIsAssigned(row: UserRow, id: int, user: UserRow, fields: set<Field>, blankPassword: bool, stamp: Time)
    requires !row.isDeleted
    ensures MaskAssigned(row, user, fields, blankPassword,
                         Change(row, id, UpdateUser(id, row, user, fields, blankPassword, stamp)))
  {
    AssignMeaning(row, user, fields, blankPassword);
    SaveStores(row, Updated(row, user, fields, blankPassword, stamp));
  }

  /** A write to one user that read the row as it is changes that row alone. */
  lemma ChangesOneRow(rows: Users, id: int, w: Write)
    requires id in rows && (w.UpdateUser? || w.DeleteUser? || w.SuspendUser?) && w.id == id
    ensures Apply(rows, w) == rows[id := Change(rows[id], id, w)]
  {}

  lemma DeletedRow(row: UserRow, id: int, stamp: Time)
    requires !row.isDeleted
    ensures var after := Change(row, id, DeleteUser(id, row, stamp));
            && after == row.(isDeleted := true, lastInvalidatedAt := Some(stamp))
            && forall issuedAt, now :: ShouldRejectUserSession(Some(after), issuedAt, now)
  {}

  /** Active and suspended until then, or banned. */
  predicate SuspendedAs(before: UserRow, until: Option<Time>, now: Time, after: UserRow) {
    after == before.(status := if until.Some? then 1 else 2, suspendedUntil := until, lastInvalidatedAt := Some(now))
  }

  /** A row of another table that belongs to a user: a post or a favourite. */
  datatype Owned = Owned(user: int, deleted: bool)

  /** The users table and the tables that a deletion reaches, with one writer at a time. A save may fail. */
  class UserTable {
    var rows: Users
    var posts: map<int, Owned>
    var favorites: map<int, Owned>

    constructor ()
      ensures rows == map[] && posts == map[] && favorites == map[]
    {
      rows, posts, favorites := map[], map[], map[];
    }

    /** The user's rows are deleted, the others are as they were. */
    static predicate DeletedFor(before: map<int, Owned>, after: map<int, Owned>, user: int) {
      && after.Keys == before.Keys
      && forall id :: id in before ==>
           after[id] == if before[id].user == user then Owned(user, true) else before[id]
    }

    method UpdateUserFieldsAsync(id: int, actorId: int, user: UserRow, fields: set<Field>, blankPassword: bool, now: Time,
                                 saves: bool)
        returns (ok: bool)
      modifies this`rows
      ensures ok <==> id >= 1 && actorId >= 1 && fields != {} && id in old(rows) && !old(rows)[id].isDeleted && saves
      ensures ok ==> rows == Apply(old(rows), UpdateUser(id, old(rows)[id], user, fields, blankPassword, now))
      ensures !ok ==> rows == old(rows)
      ensures ok ==> rows == old(rows)[id := rows[id]] && MaskAssigned(old(rows)[id], user, fields, blankPassword, rows[id])
      // A changed password hash, e-mail, status, role, deletion, second factor or suspension ends every earlier session.
      ensures ok && (rows[id].hashedPassword != old(rows)[id].hashedPassword
                     || !SameIgnoringCase(old(rows)[id].email, rows[id].email)
                     || rows[id].status != old(rows)[id].status || rows[id].roleId != old(rows)[id].roleId
                     || rows[id].isDeleted != old(rows)[id].isDeleted
                     || rows[id].twoFactorEnabled != old(rows)[id].twoFactorEnabled
                     || rows[id].twoFactorSecret != old(rows)[id].twoFactorSecret
                     || rows[id].suspendedUntil != old(rows)[id].suspendedUntil) ==>
                forall issuedAt, time :: issuedAt < now ==> Rejected(rows, id, issuedAt, time)
      ensures ok && rows[id].lastInvalidatedAt != old(rows)[id].lastInvalidatedAt ==>
                rows[id].lastInvalidatedAt == Some(now) && StandsOtherwise(old(rows)[id], rows[id])
    {
      if id < 1 || actorId < 1 || fields == {} || id !in rows || rows[id].isDeleted {
        return false;
      }
      ChangesOneRow(rows, id, UpdateUser(id, rows[id], user, fields, blankPassword, now));
      SecurityChangeEndsSessions(rows[id], id, user, fields, blankPassword, now);
      MaskIsAssigned(rows[id], id, user, fields, blankPassword, now);
      var row := UpdatedRow(rows[id], id, user, fields, blankPassword, now);
      if !saves {
        return false;
      }
      rows := rows[id := row];
      return true;
    }

    method UpdatedRow(read: UserRow, ghost id: int, user: UserRow, fields: set<Field>, blankPassword: bool, now: Time)
        returns (row: UserRow)
      requires !read.isDeleted
      ensures row == Change(read, id, UpdateUser(id, read, user, fields, blankPassword, now))
    {
      var entity := new UserEntity(read);
      var changed := entity.ApplyUserUpdateFields(user, fields, blankPassword);
      if changed {
        entity.lastInvalidatedAt := Some(now);
      }
      return Save(read, read, entity.Row());
    }

    method SuspendUserAsync(id: int, until: Option<Time>, now: Time) returns (ok: bool)
      modifies this`rows
      ensures ok <==> id in old(rows) && !old(rows)[id].isDeleted
      ensures ok ==> rows == Apply(old(rows), SuspendUser(id, old(rows)[id], until, now))
      ensures !ok ==> rows == old(rows)
      ensures ok ==> rows == old(rows)[id := rows[id]] && SuspendedAs(old(rows)[id], until, now, rows[id])
      // Earlier sessions end; later ones are accepted when the suspension is over, and never by a banned account.
      ensures ok ==> forall issuedAt, time :: Rejected(rows, id, issuedAt, time) <==>
                       issuedAt < now || until.None? || time < until.value
    {
      if id !in rows || rows[id].isDeleted {
        return false;
      }
      var entity := new UserEntity(rows[id]);
      entity.ApplySuspensionState(until);
      entity.lastInvalidatedAt := Some(now);
      rows := rows[id := Save(rows[id], rows[id], entity.Row())];
      return true;
    }

    /** Deletes the user's posts and favourites with the user, or none of them when the save fails. */
    method DeleteUserAsync(id: int, actorId: int, now: Time, saves: bool) returns (ok: bool)
      modifies this
      ensures ok <==> id >= 1 && actorId >= 1 && id in old(rows) && !old(rows)[id].isDeleted && saves
      ensures ok ==> rows == Apply(old(rows), DeleteUser(id, old(rows)[id], now))
      ensures ok ==> rows == old(rows)[id := old(rows)[id].(isDeleted := true, lastInvalidatedAt := Some(now))]
      ensures ok ==> forall issuedAt, time :: Rejected(rows, id, issuedAt, time)
      ensures ok ==> DeletedFor(old(posts), posts, id) && DeletedFor(old(favorites), favorites, id)
      ensures !ok ==> rows == old(rows) && posts == old(posts) && favorites == old(favorites)
    {
      if id < 1 || actorId < 1 || id !in rows || rows[id].isDeleted {
        return false;
      }
      ChangesOneRow(rows, id, DeleteUser(id, rows[id], now));
      DeletedRow(rows[id], id, now);
      var postsBefore, favoritesBefore := posts, favorites;
      posts := map p | p in posts ::
                 if posts[p].user == id && !posts[p].deleted then posts[p].(deleted := true) else posts[p];
      favorites := map f | f in favorites ::
                     if favorites[f].user == id && !favorites[f].deleted then favorites[f].(deleted := true)
                     else favorites[f];
      var entity := new UserEntity(rows[id]);
      entity.ApplyDeletionState(now);
      if !saves {
        posts, favorites := postsBefore, favoritesBefore;
        return false;
      }
      rows := rows[id := Save(rows[id], rows[id], entity.Row())];
      return true;
    }

    method UpdateOneStatus(id: int, loaded: map<int, UserRow>, status: int, now: Time)
      requires id in rows && id in loaded && !loaded[id].isDeleted
      modifies this`rows
      ensures rows == old(rows)[id := Change(old(rows)[id], id, BulkUpdateStatus(loaded, status, now))]
    {
      var entity := new UserEntity(loaded[id]);
      var moreRestrictive := status != ACTIVE && entity.status != status;
      entity.status := status;
      entity.suspendedUntil := None;
      if moreRestrictive {
        entity.lastInvalidatedAt := Some(now);
      }
      rows := rows[id := Save(rows[id], loaded[id], entity.Row())];
    }

    /** None when the call is refused for naming too many users. */
    method BulkUpdateUserStatusAsync(userIds: seq<int>, status: int, now: Time) returns (count: Option<nat>)
      modifies this`rows
      ensures count.None? <==> |userIds| > MAX_BULK_USERS
      ensures count.None? ==> rows == old(rows)
      ensures count.Some? ==>
                var loaded := map id | id in old(rows) && id in userIds && !old(rows)[id].isDeleted :: old(rows)[id];
                rows == Apply(old(rows), BulkUpdateStatus(loaded, status, now)) && count.value == |loaded|
      ensures count.Some? ==> rows.Keys == old(rows).Keys && forall id :: id in rows ==>
                if id !in userIds || old(rows)[id].isDeleted then rows[id] == old(rows)[id]
                else rows[id] == old(rows)[id].(status := status, suspendedUntil := None,
                                 lastInvalidatedAt := if status == 1 || old(rows)[id].status == status
                                 then old(rows)[id].lastInvalidatedAt else Some(now))
    {
      if |userIds| > MAX_BULK_USERS {
        return None;
      }
      var loaded := map id | id in rows && id in userIds && !rows[id].isDeleted :: rows[id];
      var todo: set<int> := loaded.Keys;
      while todo != {}
        invariant todo <= loaded.Keys && rows.Keys == old(rows).Keys
        invariant forall id <- rows ::
                    rows[id] == if id in todo then old(rows)[id]
                                else Change(old(rows)[id], id, BulkUpdateStatus(loaded, status, now))
        decreases |todo|
      {
        var id := AnyOf(todo);
        UpdateOneStatus(id, loaded, status, now);
        todo := todo - {id};
      }
      return Some(|loaded|);
    }

    /** A rehash of the password that the caller has just verified: it ends no session. */
    method UpdatePasswordHashForCredentialRehashAsync(id: int, expected: string, replacement: string)
        returns (ok: bool)
      modifies this`rows
      ensures ok <==> && id >= 1 && !IsBlank(expected) && !IsBlank(replacement) && expected != replacement
                      && id in old(rows) && !old(rows)[id].isDeleted && old(rows)[id].hashedPassword == expected
      ensures ok ==> && rows == Apply(old(rows), RehashPassword(id, expected, replacement))
                     && rows == old(rows)[id := old(rows)[id].(hashedPassword := replacement)]
      ensures ok ==> forall issuedAt, time :: Rejected(rows, id, issuedAt, time) == Rejected(old(rows), id, issuedAt, time)
      ensures !ok ==> rows == old(rows)
    {
      if id < 1 || IsBlank(expected) || IsBlank(replacement) || expected == replacement {
        return false;
      }
      if id !in rows || rows[id].isDeleted || rows[id].hashedPassword != expected {
        return false;
      }
      rows := rows[id := rows[id].(hashedPassword := replacement)];
      return true;
    }

    method InvalidateAllUserSessionsAsync(id: int, now: Time)
      modifies this`rows
      ensures rows == Apply(old(rows), InvalidateAllSessions(id, now))
      ensures id in old(rows) && !old(rows)[id].isDeleted ==>
                && rows == old(rows)[id := old(rows)[id].(lastInvalidatedAt := Some(now))]
                && forall issuedAt, time :: issuedAt < now ==> Rejected(rows, id, issuedAt, time)
      ensures id !in old(rows) || old(rows)[id].isDeleted ==> rows == old(rows)
    {
      if id in rows && !rows[id].isDeleted {
        rows := rows[id := rows[id].(lastInvalidatedAt := Some(now))];
      }
    }
  }
}
