/**
 Session revocation: a token carries its issue time, and is rejected from the state of its user's row.
 Every writer of that row is a step. A writer loads the row, changes it in memory and saves the columns
 it changed; `read` is the row it loaded, which another writer may have changed meanwhile, and `stamp`
 is the clock value it wrote as the invalidation time.
 */
module SessionRevocation {
  import opened Wrappers
  import opened Text

  /** Ticks of 100 ns. */
  type Time = int

  const ACTIVE := 1
  const BANNED := 2
  const MAX_BULK_USERS := 500

  datatype UserRow = UserRow(
    hashedPassword: string, email: string, profile: string, status: int, roleId: int, isDeleted: bool,
    twoFactorEnabled: bool, twoFactorSecret: Option<string>, twoFactorPendingSecret: Option<string>,
    suspendedUntil: Option<Time>, isEmailVerified: bool, lastInvalidatedAt: Option<Time>)

  datatype Field =
    | HashedPassword | Email | Profile | Status | Role | IsDeleted | TwoFactorEnabled | TwoFactorSecret
    | TwoFactorPendingSecret | SuspendedUntil | IsEmailVerified

  type Users = map<int, UserRow>

  // ---- reading: is a token rejected ----

  predicate Suspended(row: UserRow, now: Time) {
    row.suspendedUntil.Some? && row.suspendedUntil.value > now
  }

  predicate Invalidated(row: UserRow, issuedAt: Time) {
    row.lastInvalidatedAt.Some? && issuedAt < row.lastInvalidatedAt.value
  }

  predicate ShouldRejectUserSession(user: Option<UserRow>, issuedAt: Time, now: Time) {
    if user.None? || user.value.isDeleted || user.value.status != ACTIVE then true
    else if Suspended(user.value, now) then true
    else Invalidated(user.value, issuedAt)
  }

  function Find(users: Users, id: int): Option<UserRow> {
    if id in users then Some(users[id]) else None
  }

  predicate Rejected(users: Users, id: int, issuedAt: Time, now: Time) {
    ShouldRejectUserSession(Find(users, id), issuedAt, now)
  }

  // ---- writing ----

  /** The masked assignment of model fields to a row. */
  function Assign(row: UserRow, model: UserRow, fields: set<Field>, blankPassword: bool): UserRow {
    UserRow(
      if HashedPassword in fields && !blankPassword then model.hashedPassword else row.hashedPassword,
      if Email in fields then model.email else row.email,
      if Profile in fields then model.profile else row.profile,
      if Status in fields then model.status else row.status,
      if Role in fields then model.roleId else row.roleId,
      if IsDeleted in fields then model.isDeleted else row.isDeleted,
      if TwoFactorEnabled in fields then model.twoFactorEnabled else row.twoFactorEnabled,
      if TwoFactorSecret in fields then model.twoFactorSecret else row.twoFactorSecret,
      if TwoFactorPendingSecret in fields then model.twoFactorPendingSecret else row.twoFactorPendingSecret,
      if SuspendedUntil in fields then model.suspendedUntil else row.suspendedUntil,
      if IsEmailVerified in fields then model.isEmailVerified else row.isEmailVerified,
      row.lastInvalidatedAt)
  }

  predicate SecurityStateDiffers(a: UserRow, b: UserRow) {
    || a.hashedPassword != b.hashedPassword || !SameIgnoringCase(a.email, b.email)
    || a.status != b.status || a.roleId != b.roleId || a.isDeleted != b.isDeleted
    || a.twoFactorEnabled != b.twoFactorEnabled || a.twoFactorSecret != b.twoFactorSecret
    || a.suspendedUntil != b.suspendedUntil
  }

  /** What UpdateUserCoreAsync makes of the row it read. */
  function Updated(read: UserRow, model: UserRow, fields: set<Field>, blankPassword: bool, stamp: Time): UserRow {
    var row := Assign(read, model, fields, blankPassword);
    if SecurityStateDiffers(read, row) then row.(lastInvalidatedAt := Some(stamp)) else row
  }

  function WithSuspension(row: UserRow, until: Option<Time>): UserRow {
    if until.Some? then row.(status := ACTIVE, suspendedUntil := until)
    else row.(status := BANNED, suspendedUntil := None)
  }

  function WithBulkStatus(row: UserRow, status: int, stamp: Time): UserRow {
    var moreRestrictive := status != ACTIVE && row.status != status;
    row.(status := status, suspendedUntil := None,
    lastInvalidatedAt := if moreRestrictive then Some(stamp) else row.lastInvalidatedAt)
  }

  /** Saving: only the columns that were changed in memory are written. */
  function Save(db: UserRow, read: UserRow, row: UserRow): UserRow {
    UserRow(
      if row.hashedPassword != read.hashedPassword then row.hashedPassword else db.hashedPassword,
      if row.email != read.email then row.email else db.email,
      if row.profile != read.profile then row.profile else db.profile,
      if row.status != read.status then row.status else db.status,
      if row.roleId != read.roleId then row.roleId else db.roleId,
      if row.isDeleted != read.isDeleted then row.isDeleted else db.isDeleted,
      if row.twoFactorEnabled != read.twoFactorEnabled then row.twoFactorEnabled else db.twoFactorEnabled,
      if row.twoFactorSecret != read.twoFactorSecret then row.twoFactorSecret else db.twoFactorSecret,
      if row.twoFactorPendingSecret != read.twoFactorPendingSecret
      then row.twoFactorPendingSecret else db.twoFactorPendingSecret,
      if row.suspendedUntil != read.suspendedUntil then row.suspendedUntil else db.suspendedUntil,
      if row.isEmailVerified != read.isEmailVerified then row.isEmailVerified else db.isEmailVerified,
      if row.lastInvalidatedAt != read.lastInvalidatedAt then row.lastInvalidatedAt else db.lastInvalidatedAt)
  }

  datatype Write =
    | AddUser(id: int, row: UserRow)
    | UpdateUser(id: int, read: UserRow, model: UserRow, fields: set<Field>, blankPassword: bool, stamp: Time)
    | RehashPassword(id: int, expected: string, replacement: string)
    | SuspendUser(id: int, read: UserRow, until: Option<Time>, stamp: Time)
    | BulkUpdateStatus(loaded: map<int, UserRow>, status: int, stamp: Time)
    | DeleteUser(id: int, read: UserRow, stamp: Time)
    | InvalidateAllSessions(id: int, stamp: Time)

  /** The row of user `id` after a write; users that are deleted are not found by any writer. */
  function Change(row: UserRow, id: int, w: Write): UserRow {
    match w
    case AddUser(_, _) => row
    case UpdateUser(i, read, model, fields, blank, stamp) =>
      if i != id || read.isDeleted then row else Save(row, read, Updated(read, model, fields, blank, stamp))
    case RehashPassword(i, expected, replacement) =>
      if i != id || row.isDeleted || row.hashedPassword != expected then row
      else row.(hashedPassword := replacement)
    case SuspendUser(i, read, until, stamp) =>
      if i != id || read.isDeleted then row
      else Save(row, read, WithSuspension(read, until).(lastInvalidatedAt := Some(stamp)))
    case BulkUpdateStatus(loaded, status, stamp) =>
      if id !in loaded || loaded[id].isDeleted then row
      else Save(row, loaded[id], WithBulkStatus(loaded[id], status, stamp))
    case DeleteUser(i, read, stamp) =>
      if i != id || read.isDeleted then row
      else Save(row, read, read.(isDeleted := true, lastInvalidatedAt := Some(stamp)))
    case InvalidateAllSessions(i, stamp) =>
      if i != id || row.isDeleted then row else row.(lastInvalidatedAt := Some(stamp))
  }

  function Apply(users: Users, w: Write): Users {
    var changed := map id | id in users :: Change(users[id], id, w);
    if w.AddUser? && w.id !in users then changed[w.id := w.row.(lastInvalidatedAt := None)] else changed
  }

  function After(users: Users, ws: seq<Write>): Users {
    if ws == [] then users else Apply(After(users, ws[..|ws| - 1]), ws[|ws| - 1])
  }

  // ---- what ends a session ----

  /** No token issued before the time is accepted, now or later, unless the account is changed again. */
  ghost predicate EndsSessionsBefore(row: UserRow, time: Time) {
    forall issuedAt, now :: issuedAt < time ==> ShouldRejectUserSession(Some(row), issuedAt, now)
  }

  /** One account as two readers see it, column by column: one of the columns that a session stands on is different. The
      profile, the verified e-mail, a pending second factor and the case of the e-mail are none of them. */
  predicate StandsOtherwise(before: UserRow, after: UserRow) {
    !(&& before.hashedPassword == after.hashedPassword && SameIgnoringCase(before.email, after.email)
      && before.status == after.status && before.roleId == after.roleId && before.isDeleted == after.isDeleted
      && before.twoFactorEnabled == after.twoFactorEnabled && before.twoFactorSecret == after.twoFactorSecret
      && before.suspendedUntil == after.suspendedUntil)
  }

  /** An update of the row as it is: if the stored password hash, e-mail beyond case, status, role, deletion, second
      factor or suspension is then different, every earlier session ends; otherwise none does. */
  lemma SecurityChangeEndsSessions(row: UserRow, id: int, model: UserRow, fields: set<Field>, blankPassword: bool,
                                   stamp: Time)
    requires !row.isDeleted
    ensures var after := Change(row, id, UpdateUser(id, row, model, fields, blankPassword, stamp));
            && (StandsOtherwise(row, after) ==> after.lastInvalidatedAt == Some(stamp) && EndsSessionsBefore(after, stamp))
            && (!StandsOtherwise(row, after) ==>
                  && after.lastInvalidatedAt == row.lastInvalidatedAt
                  && forall issuedAt, now :: ShouldRejectUserSession(Some(after), issuedAt, now)
                                             == ShouldRejectUserSession(Some(row), issuedAt, now))
  {
    var after := Change(row, id, UpdateUser(id, row, model, fields, blankPassword, stamp));
    if StandsOtherwise(row, after) {
      forall issuedAt, now | issuedAt < stamp ensures ShouldRejectUserSession(Some(after), issuedAt, now) { }
    }
  }

  /** A token is accepted exactly by an account that is there, undeleted, active and not suspended at that time, if the
      token was issued no earlier than the account's invalidation time. */
  lemma AcceptedExactly(users: Users, id: int, issuedAt: Time, now: Time)
    ensures !Rejected(users, id, issuedAt, now) <==>
            && id in users && !users[id].isDeleted && users[id].status == 1
            && (users[id].suspendedUntil == None || users[id].suspendedUntil.value <= now)
            && (users[id].lastInvalidatedAt == None || users[id].lastInvalidatedAt.value <= issuedAt)
  {}

  // ---- revocation is permanent ----

  /** The account would let its user in at this time. */
  predicate Acceptable(users: Users, id: int, now: Time) {
    id in users && !ShouldRejectUserSession(Some(users[id]), now, now)
  }

  function StampOf(w: Write): Time
    requires HasStamp(w)
  {
    w.stamp
  }

  predicate HasStamp(w: Write) {
    !w.AddUser? && !w.RehashPassword?
  }

  /** The write saves the invalidation time of the user. */
  predicate Restamps(row: UserRow, id: int, w: Write) {
    match w
    case AddUser(_, _) => false
    case RehashPassword(_, _, _) => false
    case UpdateUser(i, read, model, fields, blank, stamp) =>
      i == id && !read.isDeleted && Updated(read, model, fields, blank, stamp).lastInvalidatedAt != read.lastInvalidatedAt
    case SuspendUser(i, read, _, stamp) => i == id && !read.isDeleted && read.lastInvalidatedAt != Some(stamp)
    case BulkUpdateStatus(loaded, status, stamp) =>
      id in loaded && !loaded[id].isDeleted
      && WithBulkStatus(loaded[id], status, stamp).lastInvalidatedAt != loaded[id].lastInvalidatedAt
    case DeleteUser(i, read, stamp) => i == id && !read.isDeleted && read.lastInvalidatedAt != Some(stamp)
    case InvalidateAllSessions(i, _) => i == id && !row.isDeleted
  }

  /** The account keeps its user out at this time. */
  predicate Blocked(row: UserRow, time: Time) {
    row.isDeleted || row.status != ACTIVE || Suspended(row, time)
  }

  /** Nothing about the account can let the token in again. */
  predicate Dead(row: UserRow, issuedAt: Time) {
    row.isDeleted || Invalidated(row, issuedAt)
  }

  /** What a write must do for a token of that time: unless it leaves the account deleted, it must not replace the
      invalidation time of a token by one no later than the token, nor block the account without a later one. */
  predicate Lasts(row: UserRow, id: int, w: Write, issuedAt: Time) {
    || Change(row, id, w).isDeleted
    || (if Invalidated(row, issuedAt) then Restamps(row, id, w) ==> issuedAt < StampOf(w)
        else Blocked(Change(row, id, w), issuedAt) ==> Restamps(row, id, w) && issuedAt < StampOf(w))
  }

  /** For a token of that time: dead, or let in by the account now and later. */
  predicate Decided(row: UserRow, issuedAt: Time) {
    Dead(row, issuedAt) || !Blocked(row, issuedAt)
  }

  lemma SavedStamp(row: UserRow, id: int, w: Write)
    ensures Change(row, id, w).lastInvalidatedAt == if Restamps(row, id, w) then Some(StampOf(w)) else row.lastInvalidatedAt
  {}

  lemma DeletionSticks(row: UserRow, id: int, w: Write)
    ensures row.isDeleted ==> Change(row, id, w).isDeleted
  {}

  /** The condition is exact for one write: it keeps a decided token decided, and a dead one dead, exactly then. */
  lemma WriteLastsExactly(row: UserRow, id: int, w: Write, issuedAt: Time)
    requires Decided(row, issuedAt)
    ensures var after := Change(row, id, w);
            Lasts(row, id, w, issuedAt) <==>
            Decided(after, issuedAt) && (Dead(row, issuedAt) ==> Dead(after, issuedAt))
  {
    SavedStamp(row, id, w);
    DeletionSticks(row, id, w);
  }

  /** Every write of the run meets its condition on the row it finds. */
  ghost predicate AllLast(users: Users, ws: seq<Write>, id: int, issuedAt: Time)
    requires id in users
  {
    forall k :: 0 <= k < |ws| ==> Lasts(RowAfter(users, ws, k, id), id, ws[k], issuedAt)
  }

  lemma {:induction false} UsersStay(users: Users, ws: seq<Write>, id: int)
    requires id in users
    ensures id in After(users, ws)
  {
    if ws != [] { UsersStay(users, ws[..|ws| - 1], id); }
  }

  /** The row of the user after the first k writes. */
  ghost function RowAfter(users: Users, ws: seq<Write>, k: int, id: int): UserRow
    requires id in users && 0 <= k <= |ws|
  {
    UsersStay(users, ws[..k], id);
    After(users, ws[..k])[id]
  }

  lemma NextRow(users: Users, ws: seq<Write>, k: int, id: int)
    requires id in users && 0 <= k < |ws|
    ensures RowAfter(users, ws, k + 1, id) == Change(RowAfter(users, ws, k, id), id, ws[k])
  {
    UsersStay(users, ws[..k], id);
    assert ws[..k + 1][..k] == ws[..k] && ws[..k + 1][k] == ws[k];
  }

  ghost predicate StepKeeps(users: Users, ws: seq<Write>, k: int, id: int, issuedAt: Time)
    requires id in users && 0 <= k < |ws|
  {
    var before, after := RowAfter(users, ws, k, id), RowAfter(users, ws, k + 1, id);
    Decided(before, issuedAt) ==> Decided(after, issuedAt) && (Dead(before, issuedAt) ==> Dead(after, issuedAt))
  }

  lemma LastingStepKeeps(users: Users, ws: seq<Write>, k: int, id: int, issuedAt: Time)
    requires id in users && 0 <= k < |ws| && Lasts(RowAfter(users, ws, k, id), id, ws[k], issuedAt)
    ensures StepKeeps(users, ws, k, id, issuedAt)
  {
    NextRow(users, ws, k, id);
    if Decided(RowAfter(users, ws, k, id), issuedAt) {
      WriteLastsExactly(RowAfter(users, ws, k, id), id, ws[k], issuedAt);
    }
  }

  lemma {:induction false} StepsKeepDecided(users: Users, ws: seq<Write>, m: int, n: int, id: int, issuedAt: Time)
    requires id in users && 0 <= m <= n <= |ws|
    requires forall k :: m <= k < n ==> StepKeeps(users, ws, k, id, issuedAt)
    requires Decided(RowAfter(users, ws, m, id), issuedAt)
    ensures Decided(RowAfter(users, ws, n, id), issuedAt)
    ensures Dead(RowAfter(users, ws, m, id), issuedAt) ==> Dead(RowAfter(users, ws, n, id), issuedAt)
    decreases n
  {
    if m < n {
      StepsKeepDecided(users, ws, m, n - 1, id, issuedAt);
      assert StepKeeps(users, ws, n - 1, id, issuedAt);
    }
  }

  /** Over a run whose writes meet the condition the token stays decided, and once dead it stays dead. */
  lemma RunKeepsDecided(users: Users, ws: seq<Write>, m: int, n: int, id: int, issuedAt: Time)
    requires id in users && Decided(users[id], issuedAt) && 0 <= m <= n <= |ws|
    requires forall k :: 0 <= k < n ==> Lasts(RowAfter(users, ws, k, id), id, ws[k], issuedAt)
    ensures Decided(RowAfter(users, ws, m, id), issuedAt) && Decided(RowAfter(users, ws, n, id), issuedAt)
    ensures Dead(RowAfter(users, ws, m, id), issuedAt) ==> Dead(RowAfter(users, ws, n, id), issuedAt)
  {
    forall k | 0 <= k < n ensures StepKeeps(users, ws, k, id, issuedAt) {
      LastingStepKeeps(users, ws, k, id, issuedAt);
    }
    assert ws[..0] == [];
    StepsKeepDecided(users, ws, 0, m, id, issuedAt);
    StepsKeepDecided(users, ws, m, n, id, issuedAt);
  }

  lemma RejectedWhenDead(row: UserRow, issuedAt: Time, time: Time)
    requires issuedAt <= time && Decided(row, issuedAt)
    ensures ShouldRejectUserSession(Some(row), issuedAt, time) <==> Dead(row, issuedAt)
  {}

  /** A token issued to an acceptable account and ever rejected stays rejected at every later time, through every later
      ban, unban, suspension, its expiry or removal, update, deletion and invalidation, however the writers overlap,
      if each write that lands after the issue meets its condition. */
  lemma RevocationIsPermanent(users: Users, ws: seq<Write>, m: int, n: int, id: int, issuedAt: Time, t1: Time, t2: Time)
    requires Acceptable(users, id, issuedAt) && 0 <= m <= n <= |ws| && issuedAt <= t1 && issuedAt <= t2
    requires AllLast(users, ws, id, issuedAt)
    requires ShouldRejectUserSession(Some(RowAfter(users, ws, m, id)), issuedAt, t1)
    ensures ShouldRejectUserSession(Some(RowAfter(users, ws, n, id)), issuedAt, t2)
  {
    RunKeepsDecided(users, ws, m, n, id, issuedAt);
    RejectedWhenDead(RowAfter(users, ws, m, id), issuedAt, t1);
    RejectedWhenDead(RowAfter(users, ws, n, id), issuedAt, t2);
  }

  /** The account after an administrator lifts whatever blocks it. */
  function Lifted(row: UserRow, id: int, stamp: Time): UserRow {
    Change(row, id, BulkUpdateStatus(map[id := row], ACTIVE, stamp))
  }

  lemma LiftingDecides(row: UserRow, id: int, stamp: Time, issuedAt: Time, time: Time)
    ensures ShouldRejectUserSession(Some(Lifted(row, id, stamp)), issuedAt, time) <==> Dead(row, issuedAt)
  {}

  /** Whenever the token was rejected, no lifting at that point of the run or later lets it in again. */
  ghost predicate NeverRevived(users: Users, ws: seq<Write>, id: int, issuedAt: Time, stamp: Time)
    requires id in users
  {
    forall m, n, t1, t2 ::
      0 <= m <= n <= |ws| && issuedAt <= t1 && issuedAt <= t2
      && ShouldRejectUserSession(Some(RowAfter(users, ws, m, id)), issuedAt, t1)
      ==> ShouldRejectUserSession(Some(Lifted(RowAfter(users, ws, n, id), id, stamp)), issuedAt, t2)
  }

  /** For every run: a token once rejected is never let in again by lifting the blocks of its account exactly when every
      write met its condition. */
  lemma RevocationLastsExactly(users: Users, ws: seq<Write>, id: int, issuedAt: Time, stamp: Time)
    requires Acceptable(users, id, issuedAt)
    ensures NeverRevived(users, ws, id, issuedAt, stamp) <==> AllLast(users, ws, id, issuedAt)
  {
    if AllLast(users, ws, id, issuedAt) {
      forall m, n, t1, t2 |
        0 <= m <= n <= |ws| && issuedAt <= t1 && issuedAt <= t2
        && ShouldRejectUserSession(Some(RowAfter(users, ws, m, id)), issuedAt, t1)
        ensures ShouldRejectUserSession(Some(Lifted(RowAfter(users, ws, n, id), id, stamp)), issuedAt, t2)
      {
        RunKeepsDecided(users, ws, m, n, id, issuedAt);
        RejectedWhenDead(RowAfter(users, ws, m, id), issuedAt, t1);
        LiftingDecides(RowAfter(users, ws, n, id), id, stamp, issuedAt, t2);
      }
    } else {
      var k := FirstFailure(users, ws, |ws|, id, issuedAt);
      RunKeepsDecided(users, ws, k, k, id, issuedAt);
      FailureRevives(users, ws, k, id, issuedAt, stamp);
    }
  }

  lemma {:induction false} FirstFailure(users: Users, ws: seq<Write>, n: int, id: int, issuedAt: Time) returns (k: int)
    requires id in users && 0 <= n <= |ws|
    requires exists j :: 0 <= j < n && !Lasts(RowAfter(users, ws, j, id), id, ws[j], issuedAt)
    ensures 0 <= k < n && !Lasts(RowAfter(users, ws, k, id), id, ws[k], issuedAt)
    ensures forall j :: 0 <= j < k ==> Lasts(RowAfter(users, ws, j, id), id, ws[j], issuedAt)
    decreases n
  {
    if exists j :: 0 <= j < n - 1 && !Lasts(RowAfter(users, ws, j, id), id, ws[j], issuedAt) {
      k := FirstFailure(users, ws, n - 1, id, issuedAt);
    } else {
      k := n - 1;
    }
  }

  /** A write that fails its condition: the token is rejected before or after it, and lifting the blocks lets it in. */
  lemma FailureRevives(users: Users, ws: seq<Write>, k: int, id: int, issuedAt: Time, stamp: Time)
    requires id in users && 0 <= k < |ws| && Decided(RowAfter(users, ws, k, id), issuedAt)
    requires !Lasts(RowAfter(users, ws, k, id), id, ws[k], issuedAt)
    ensures !NeverRevived(users, ws, id, issuedAt, stamp)
  {
    var before, after := RowAfter(users, ws, k, id), RowAfter(users, ws, k + 1, id);
    NextRow(users, ws, k, id);
    SavedStamp(before, id, ws[k]);
    DeletionSticks(before, id, ws[k]);
    LiftingDecides(after, id, stamp, issuedAt, issuedAt);
    if Invalidated(before, issuedAt) {
      assert ShouldRejectUserSession(Some(before), issuedAt, issuedAt);
    } else {
      assert ShouldRejectUserSession(Some(after), issuedAt, issuedAt);
    }
  }

  /** A write to user `id` is stamped after the time, and its stamp is not one it has just read. */
  predicate StampedAfter(w: Write, id: int, time: Time) {
    match w
    case AddUser(_, _) => true
    case RehashPassword(_, _, _) => true
    case UpdateUser(i, read, _, _, _, stamp) => i == id ==> time < stamp && read.lastInvalidatedAt != Some(stamp)
    case SuspendUser(i, read, _, stamp) => i == id ==> time < stamp && read.lastInvalidatedAt != Some(stamp)
    case DeleteUser(i, read, stamp) => i == id ==> time < stamp && read.lastInvalidatedAt != Some(stamp)
    case BulkUpdateStatus(loaded, _, stamp) =>
      id in loaded ==> time < stamp && loaded[id].lastInvalidatedAt != Some(stamp)
    case InvalidateAllSessions(i, stamp) => i == id ==> time < stamp
  }

  /** A write stamped after the token meets the condition, whatever row it read. */
  lemma StampedAfterLasts(row: UserRow, id: int, w: Write, issuedAt: Time)
    requires Decided(row, issuedAt) && StampedAfter(w, id, issuedAt)
    ensures Lasts(row, id, w, issuedAt)
  {}

  lemma {:induction false} RunStampedAfterLasts(users: Users, ws: seq<Write>, n: int, id: int, issuedAt: Time)
    requires id in users && Decided(users[id], issuedAt) && 0 <= n <= |ws|
    requires forall w <- ws :: StampedAfter(w, id, issuedAt)
    ensures forall k :: 0 <= k < n ==> Lasts(RowAfter(users, ws, k, id), id, ws[k], issuedAt)
    decreases n
  {
    if n > 0 {
      RunStampedAfterLasts(users, ws, n - 1, id, issuedAt);
      RunKeepsDecided(users, ws, n - 1, n - 1, id, issuedAt);
      StampedAfterLasts(RowAfter(users, ws, n - 1, id), id, ws[n - 1], issuedAt);
    }
  }

  // ---- when the stamps are in order ----

  /** Writers one at a time: each loaded the current rows, and stamps later than all before it. */
  ghost predicate OneAtATime(users: Users, ws: seq<Write>, start: Time) {
    ws == [] ||
    (&& OneAtATime(users, ws[..|ws| - 1], start)
     && ReadsCurrent(After(users, ws[..|ws| - 1]), ws[|ws| - 1])
     && StampLater(ws, start))
  }

  predicate ReadsCurrent(users: Users, w: Write) {
    match w
    case UpdateUser(i, read, _, _, _, _) => Find(users, i) == Some(read)
    case SuspendUser(i, read, _, _) => Find(users, i) == Some(read)
    case DeleteUser(i, read, _) => Find(users, i) == Some(read)
    case BulkUpdateStatus(loaded, _, _) => forall i <- loaded :: Find(users, i) == Some(loaded[i])
    case _ => true
  }

  ghost predicate StampLater(ws: seq<Write>, start: Time)
    requires ws != []
  {
    var w := ws[|ws| - 1];
    HasStamp(w) ==>
      start < w.stamp && forall j :: 0 <= j < |ws| - 1 && HasStamp(ws[j]) ==> ws[j].stamp < w.stamp
  }

  /** Every invalidation time in the table is no later than the start or than some stamp so far. */
  ghost predicate StampsBounded(users: Users, ws: seq<Write>, start: Time) {
    forall id <- users :: users[id].lastInvalidatedAt.Some? ==>
      || users[id].lastInvalidatedAt.value <= start
      || exists j :: 0 <= j < |ws| && HasStamp(ws[j]) && users[id].lastInvalidatedAt.value == ws[j].stamp
  }

  lemma ChangeStamps(row: UserRow, id: int, w: Write)
    ensures Change(row, id, w).lastInvalidatedAt == row.lastInvalidatedAt
            || (HasStamp(w) && Change(row, id, w).lastInvalidatedAt == Some(w.stamp))
  {
  }

  lemma {:induction false} OneAtATimeIsStampedAfter(users: Users, ws: seq<Write>, start: Time, id: int)
    requires OneAtATime(users, ws, start) && StampsBounded(users, [], start)
    ensures StampsBounded(After(users, ws), ws, start)
    ensures forall w <- ws :: StampedAfter(w, id, start)
  {
    if ws != [] {
      var pre, w := ws[..|ws| - 1], ws[|ws| - 1];
      OneAtATimeIsStampedAfter(users, pre, start, id);
      var before, after := After(users, pre), After(users, ws);
      forall i | i in after && after[i].lastInvalidatedAt.Some?
        ensures || after[i].lastInvalidatedAt.value <= start
                || exists j :: 0 <= j < |ws| && HasStamp(ws[j]) && after[i].lastInvalidatedAt.value == ws[j].stamp
      {
        if i in before {
          ChangeStamps(before[i], i, w);
          if before[i].lastInvalidatedAt.Some? && before[i].lastInvalidatedAt.value > start {
            var j :| 0 <= j < |pre| && HasStamp(pre[j]) && before[i].lastInvalidatedAt.value == pre[j].stamp;
            assert ws[j] == pre[j];
          }
        }
      }
      StampedAfterStep(before, pre, w, ws, start, id);
    }
  }

  lemma StampedAfterStep(before: Users, pre: seq<Write>, w: Write, ws: seq<Write>, start: Time, id: int)
    requires ws == pre + [w] && StampLater(ws, start) && StampsBounded(before, pre, start) && ReadsCurrent(before, w)
    ensures StampedAfter(w, id, start)
  {
    forall j | 0 <= j < |pre| ensures ws[j] == pre[j] { }
    assert ws[|ws| - 1] == w;
  }

  /** With writers one at a time under a strictly increasing clock, revocation is permanent. */
  lemma SequentialRevocationIsPermanent(users: Users, ws: seq<Write>, m: int, n: int, id: int, issuedAt: Time,
                                        t1: Time, t2: Time)
    requires StampsBounded(users, [], issuedAt) && OneAtATime(users, ws, issuedAt)
    requires Acceptable(users, id, issuedAt) && 0 <= m <= n <= |ws| && issuedAt <= t1 && issuedAt <= t2
    requires ShouldRejectUserSession(Some(RowAfter(users, ws, m, id)), issuedAt, t1)
    ensures ShouldRejectUserSession(Some(RowAfter(users, ws, n, id)), issuedAt, t2)
  {
    OneAtATimeIsStampedAfter(users, ws, issuedAt, id);
    RunStampedAfterLasts(users, ws, |ws|, id, issuedAt);
    RevocationIsPermanent(users, ws, m, n, id, issuedAt, t1, t2);
  }

  /** The stamp is what decides: for every account and token, after a ban and its lifting the token is
      accepted again exactly when the ban was stamped no later than the token. */
  lemma LateStampRevives(row: UserRow, id: int, issuedAt: Time, stamp: Time, unbanned: Time, now: Time)
    requires Acceptable(map[id := row], id, issuedAt) && issuedAt <= now && row.lastInvalidatedAt != Some(stamp)
    ensures var ban := SuspendUser(id, row, None, stamp);
            var banned := Change(row, id, ban);
            var after := Change(banned, id, BulkUpdateStatus(map[id := banned], ACTIVE, unbanned));
            && ShouldRejectUserSession(Some(banned), issuedAt, now)
            && (ShouldRejectUserSession(Some(after), issuedAt, now) <==> issuedAt < stamp)
  {
  }

  /** Two overlapping writers do break it: an e-mail change that read the row before a ban and lands after
      it puts its own stamp in place of the ban's, so once the ban is lifted the token is accepted again
      exactly when it was issued at or after the e-mail change was stamped. */
  lemma OverlappingWriteRevives(row: UserRow, id: int, email: string, editStamp: Time, issuedAt: Time,
                                banStamp: Time, unbanned: Time, now: Time)
    requires Acceptable(map[id := row], id, issuedAt) && issuedAt < banStamp && issuedAt <= now
    requires !SameIgnoringCase(row.email, email)
    requires row.lastInvalidatedAt != Some(editStamp) && row.lastInvalidatedAt != Some(banStamp)
    ensures var banned := Change(row, id, SuspendUser(id, row, None, banStamp));
            var edited := Change(banned, id, UpdateUser(id, row, row.(email := email), {Email}, false, editStamp));
            var after := Change(edited, id, BulkUpdateStatus(map[id := edited], ACTIVE, unbanned));
            && ShouldRejectUserSession(Some(banned), issuedAt, now)
            && ShouldRejectUserSession(Some(edited), issuedAt, now)
            && (ShouldRejectUserSession(Some(after), issuedAt, now) <==> issuedAt < editStamp)
  {
  }

  // ---- the issue time of a token ----

  const TICKS_PER_SECOND := 10_000_000
  const MAX_TICKS := 3_155_378_975_999_999_999
  const UNIX_EPOCH_TICKS := 621_355_968_000_000_000
  const MIN_UNIX_SECONDS := -62_135_596_800
  const MAX_UNIX_SECONDS := 253_402_300_799

  /** The tick claim if it is a valid number of ticks, else the whole-second claim, else nothing. */
  function TryResolveTokenIssuedAt(ticks: Option<int>, unixSeconds: Option<int>): (r: Option<Time>)
    ensures r.Some? ==> 0 <= r.value <= MAX_TICKS
  {
    if ticks.Some? && 0 <= ticks.value <= MAX_TICKS then ticks
    else if unixSeconds.Some? && MIN_UNIX_SECONDS <= unixSeconds.value <= MAX_UNIX_SECONDS
    then Some(UNIX_EPOCH_TICKS + unixSeconds.value * TICKS_PER_SECOND)
    else None
  }

  /** The ticks decide whenever they are a valid time; the seconds are used only without them, keep their value, and
      refuse only what no date has; without either there is no issue time. */
  lemma ClaimPrecedence(ticks: Option<int>, unixSeconds: Option<int>)
    ensures var r := TryResolveTokenIssuedAt(ticks, unixSeconds);
            var byTicks := ticks.Some? && 0 <= ticks.value <= MAX_TICKS;
            && (byTicks ==> r == ticks)
            && (!byTicks && r.Some? ==> unixSeconds == Some(IssuedAtSeconds(r.value)))
            && (r.None? <==> !byTicks && (unixSeconds.None?
                                          || unixSeconds.value * TICKS_PER_SECOND < -UNIX_EPOCH_TICKS
                                          || unixSeconds.value * TICKS_PER_SECOND > MAX_TICKS - UNIX_EPOCH_TICKS))
  {}

  /** The `iat` claim of section 4.1.6 of RFC 7519, as whole seconds. */
  function IssuedAtSeconds(issuedAt: Time): int {
    (issuedAt - UNIX_EPOCH_TICKS) / TICKS_PER_SECOND
  }

  /** Resolved from whole seconds, a token is at most one second older than from ticks, so it is never
      accepted where the tick time is rejected. */
  lemma WholeSecondsNeverAcceptMore(users: Users, id: int, issuedAt: Time, now: Time)
    requires UNIX_EPOCH_TICKS <= issuedAt <= MAX_TICKS
    ensures TryResolveTokenIssuedAt(Some(issuedAt), Some(IssuedAtSeconds(issuedAt))) == Some(issuedAt)
    ensures var legacy := TryResolveTokenIssuedAt(None, Some(IssuedAtSeconds(issuedAt)));
            && legacy.Some? && issuedAt - TICKS_PER_SECOND < legacy.value <= issuedAt
            && (Rejected(users, id, issuedAt, now) ==> Rejected(users, id, legacy.value, now))
  {
    var n := issuedAt - UNIX_EPOCH_TICKS;
    assert n == (n / TICKS_PER_SECOND) * TICKS_PER_SECOND + n % TICKS_PER_SECOND;
    assert 0 <= n / TICKS_PER_SECOND <= MAX_UNIX_SECONDS;
  }
}
