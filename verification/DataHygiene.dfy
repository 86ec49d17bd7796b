/** The hygiene job: what a scan finds, when it may clean by itself, and what an approval does. */
module DataHygiene {
  import opened Wrappers

  const DAY := 86_400

  datatype Table =
    | BlacklistedTokens | VerificationChallenges | PushSubscriptions | Notifications | PostImages | Favorites
    | AuditLog | Posts | Messages | Reviews

  /** A row with the columns the job looks at; `hidden` challenges belong to deleted users. */
  datatype Row =
    | Token(expiresAt: int)
    | Challenge(expiresAt: int, hidden: bool)
    | Push(active: bool, updatedAt: int)
    | Notification(read: bool, readAt: Option<int>, deleted: bool)
    | Child(post: int, deleted: bool)
    | Audit(changedAt: int)
    | Other(deleted: bool)

  type Rows = map<int, Row>

  datatype Kind = ColdData | Stale | Orphan | TableHealth

  datatype Classification = SafeToDelete | Archive | RequiresReview | Info

  datatype Action = Nothing | HardDeleted | SoftDeleted | Skipped

  datatype Finding = Finding(cycle: int, table: Table, kind: Kind, classification: Classification, affected: nat,
                             phase: nat, action: Action, detectedAt: int)

  datatype Db = Db(tables: map<Table, Rows>, deletedPosts: set<int>, log: seq<Finding>)

  function RowsOf(tables: map<Table, Rows>, t: Table): Rows {
    if t in tables then tables[t] else map[]
  }

  /** What a cleanup of a table is after. */
  predicate Matches(deletedPosts: set<int>, t: Table, row: Row, now: int) {
    match row
    case Token(expiresAt) => t == BlacklistedTokens && expiresAt <= now
    case Challenge(expiresAt, hidden) => t == VerificationChallenges && !hidden && expiresAt < now
    case Push(active, updatedAt) => t == PushSubscriptions && !active && updatedAt < now - 90 * DAY
    case Notification(read, readAt, deleted) =>
      t == Notifications && read && readAt.Some? && readAt.value < now - 30 * DAY && !deleted
    case Child(post, deleted) => (t == PostImages || t == Favorites) && !deleted && post in deletedPosts
    case _ => false
  }

  function Matching(rows: Rows, deletedPosts: set<int>, t: Table, now: int): set<int> {
    set id | id in rows && Matches(deletedPosts, t, rows[id], now)
  }

  predicate HardDeletes(t: Table) {
    t == BlacklistedTokens || t == VerificationChallenges || t == PushSubscriptions
  }

  predicate SoftDeletes(t: Table) {
    t == Notifications || t == PostImages || t == Favorites
  }

  function WithDeleted(row: Row): Row {
    match row
    case Notification(read, readAt, _) => Notification(read, readAt, true)
    case Child(post, _) => Child(post, true)
    case _ => row
  }

  /** When a cleanup runs (for a loop of batches, its last one), and whether it throws: then some batches of a hard
      deletion may be gone already, while a soft deletion is one statement. */
  datatype Fate = Fate(at: int, thrown: Option<set<int>>)

  /** The rows that a cleanup reaches. */
  function Reached(rows: Rows, deletedPosts: set<int>, t: Table, fate: Fate): set<int> {
    var matching := Matching(rows, deletedPosts, t, fate.at);
    if fate.thrown.None? then matching else if HardDeletes(t) then matching * fate.thrown.value else {}
  }

  /** A table after its cleanup; the audit log and unknown tables are left alone. */
  function CleanRows(rows: Rows, deletedPosts: set<int>, t: Table, fate: Fate): Rows {
    var reached := Reached(rows, deletedPosts, t, fate);
    if HardDeletes(t) then rows - reached
    else if SoftDeletes(t) then map id | id in rows :: if id in reached then WithDeleted(rows[id]) else rows[id]
    else rows
  }

  function Cleaned(tables: map<Table, Rows>, deletedPosts: set<int>, t: Table, fate: Fate): map<Table, Rows> {
    if t in tables then tables[t := CleanRows(tables[t], deletedPosts, t, fate)] else tables
  }

  /** The rows a cleanup is after at a time. */
  function Count(tables: map<Table, Rows>, deletedPosts: set<int>, t: Table, now: int): nat {
    if HardDeletes(t) || SoftDeletes(t) then |Matching(RowsOf(tables, t), deletedPosts, t, now)| else 0
  }

  /** What a cleanup reports; nothing when it throws. */
  function Affected(tables: map<Table, Rows>, deletedPosts: set<int>, t: Table, fate: Fate): nat {
    if fate.thrown.Some? then 0 else Count(tables, deletedPosts, t, fate.at)
  }

  // ---- a scan ----

  function StaleAudit(rows: Rows, cutoff: int): set<int> {
    set id | id in rows && rows[id].Audit? && rows[id].changedAt < cutoff
  }

  function Visible(rows: Rows): set<int> {
    set id | id in rows && !(rows[id].Challenge? && rows[id].hidden)
  }

  function TableRowCount(tables: map<Table, Rows>, t: Table): nat {
    if HardDeletes(t) || SoftDeletes(t) || t == AuditLog then |Visible(RowsOf(tables, t))| else 0
  }

  function FoundCount(db: Db, t: Table, now: int, auditCutoff: int): nat {
    if t == AuditLog then |StaleAudit(RowsOf(db.tables, t), auditCutoff)| else Count(db.tables, db.deletedPosts, t, now)
  }

  function KindOf(t: Table): Kind {
    match t
    case BlacklistedTokens => ColdData
    case VerificationChallenges => ColdData
    case PostImages => Orphan
    case Favorites => Orphan
    case _ => Stale
  }

  const LIGHT := [BlacklistedTokens, VerificationChallenges, PushSubscriptions, Notifications]
  const HEAVY := [PostImages, Favorites, AuditLog]
  const PROFILED := [Posts, PostImages, Favorites, Messages, Reviews, Notifications]

  function Detect(db: Db, scanned: seq<Table>, cycle: int, now: int, auditCutoff: int): seq<Finding> {
    if scanned == [] then []
    else
      var t, count := scanned[0], FoundCount(db, scanned[0], now, auditCutoff);
      (if count > 0 then
         [Finding(cycle, t, KindOf(t), if t == AuditLog then Archive else SafeToDelete, count, 1, Nothing, now)]
       else [])
      + Detect(db, scanned[1..], cycle, now, auditCutoff)
  }

  function Profile(db: Db, profiled: seq<Table>, cycle: int, now: int): seq<Finding> {
    seq(|profiled|, i requires 0 <= i < |profiled| =>
      Finding(cycle, profiled[i], TableHealth, Info, |RowsOf(db.tables, profiled[i])|, 1, Nothing, now))
  }

  /** More than five per cent of a table goes to review. */
  function Reclassified(tables: map<Table, Rows>, f: Finding): Finding {
    if (f.classification == SafeToDelete || f.classification == Archive)
       && TableRowCount(tables, f.table) > 0 && f.affected * 20 > TableRowCount(tables, f.table)
    then f.(classification := RequiresReview)
    else f
  }

  function ReclassifiedAll(tables: map<Table, Rows>, fs: seq<Finding>): seq<Finding> {
    seq(|fs|, i requires 0 <= i < |fs| => Reclassified(tables, fs[i]))
  }

  function Findings(db: Db, cycle: int, now: int, auditCutoff: int, heavy: bool): seq<Finding> {
    ReclassifiedAll(db.tables,
                    Detect(db, LIGHT, cycle, now, auditCutoff)
                    + if heavy then Detect(db, HEAVY, cycle, now, auditCutoff) + Profile(db, PROFILED, cycle, now) else [])
  }

  function ActionOf(f: Finding): Action {
    if f.kind == Orphan then SoftDeleted else HardDeleted
  }

  predicate Due(f: Finding, approved: Option<int>) {
    match approved
    case None => f.classification == SafeToDelete
    case Some(cycle) => f.cycle == cycle && f.classification == RequiresReview && f.phase == 1
  }

  /** The tables after the cleanups of the findings that are due: by themselves in a scan, or by approval of a cycle. The
      cleanup for the k-th finding has the k-th fate. */
  function Execute(tables: map<Table, Rows>, deletedPosts: set<int>, fs: seq<Finding>, approved: Option<int>,
                   fates: nat -> Fate): map<Table, Rows> {
    if fs == [] then tables
    else
      var before := Execute(tables, deletedPosts, fs[..|fs| - 1], approved, fates);
      var f := fs[|fs| - 1];
      if Due(f, approved) then Cleaned(before, deletedPosts, f.table, fates(|fs| - 1)) else before
  }

  function Settled(f: Finding, affected: nat, approved: Option<int>): Finding {
    if !Due(f, approved) then f
    else if affected > 0 then f.(phase := 2, action := ActionOf(f))
    else if approved.Some? then f.(phase := 2, action := Skipped)
    else f
  }

  function Marked(tables: map<Table, Rows>, deletedPosts: set<int>, fs: seq<Finding>, approved: Option<int>,
                  fates: nat -> Fate): seq<Finding> {
    if fs == [] then []
    else
      var before := fs[..|fs| - 1];
      var affected := Affected(Execute(tables, deletedPosts, before, approved, fates), deletedPosts,
                               fs[|fs| - 1].table, fates(|fs| - 1));
      Marked(tables, deletedPosts, before, approved, fates) + [Settled(fs[|fs| - 1], affected, approved)]
  }

  /** The rows that the cleanups report, all together. */
  function Reported(tables: map<Table, Rows>, deletedPosts: set<int>, fs: seq<Finding>, approved: Option<int>,
                    fates: nat -> Fate): nat {
    if fs == [] then 0
    else
      var before, f := fs[..|fs| - 1], fs[|fs| - 1];
      Reported(tables, deletedPosts, before, approved, fates)
      + if Due(f, approved) then
          Affected(Execute(tables, deletedPosts, before, approved, fates), deletedPosts, f.table, fates(|fs| - 1))
        else 0
  }

  function Recent(log: seq<Finding>, since: int): seq<Finding> {
    if log == [] then [] else (if log[0].detectedAt < since then [] else [log[0]]) + Recent(log[1..], since)
  }

  function Scan(db: Db, cycle: int, now: int, auditCutoff: int, heavy: bool, fates: nat -> Fate): Db {
    var fs := Findings(db, cycle, now, auditCutoff, heavy);
    Db(Execute(db.tables, db.deletedPosts, fs, None, fates), db.deletedPosts,
       Recent(db.log + Marked(db.tables, db.deletedPosts, fs, None, fates), now - 90 * DAY))
  }

  function Approve(db: Db, cycle: int, fates: nat -> Fate): Db {
    db.(tables := Execute(db.tables, db.deletedPosts, db.log, Some(cycle), fates),
        log := Marked(db.tables, db.deletedPosts, db.log, Some(cycle), fates))
  }

  // ---- an automatic cleanup is small ----

  /** Rows that are gone or different. */
  function Touched(before: Rows, after: Rows): set<int> {
    set id | id in before && (id !in after || after[id] != before[id])
  }

  lemma CleanTouchesReached(rows: Rows, deletedPosts: set<int>, t: Table, fate: Fate)
    ensures Touched(rows, CleanRows(rows, deletedPosts, t, fate)) ==
            if HardDeletes(t) || SoftDeletes(t) then Reached(rows, deletedPosts, t, fate) else {}
    ensures CleanRows(rows, deletedPosts, t, fate).Keys <= rows.Keys
  {
    var touched := Touched(rows, CleanRows(rows, deletedPosts, t, fate));
    if HardDeletes(t) || SoftDeletes(t) {
      var reached := Reached(rows, deletedPosts, t, fate);
      forall id ensures id in touched <==> id in reached {}
      assert touched == reached;
    } else {
      forall id ensures id !in touched {}
      NoElement(touched);
    }
  }

  lemma CleanTwice(rows: Rows, deletedPosts: set<int>, t: Table, fate: Fate)
    requires fate.thrown.None?
    ensures var once := CleanRows(rows, deletedPosts, t, fate);
            CleanRows(once, deletedPosts, t, fate) == once
  {
    var once := CleanRows(rows, deletedPosts, t, fate);
    if HardDeletes(t) {
      forall id ensures id !in Matching(once, deletedPosts, t, fate.at) {}
      NoElement(Matching(once, deletedPosts, t, fate.at));
      assert once - {} == once;
    } else if SoftDeletes(t) {
      forall id | id in once ensures !Matches(deletedPosts, t, once[id], fate.at) {}
      assert CleanRows(once, deletedPosts, t, fate) == once;
    }
  }

  /** What matches stays matching as time goes on. */
  lemma MatchingGrows(deletedPosts: set<int>, t: Table, row: Row, now: int, later: int)
    requires now <= later && Matches(deletedPosts, t, row, now)
    ensures Matches(deletedPosts, t, row, later)
  {}

  predicate DueFor(fs: seq<Finding>, approved: Option<int>, t: Table) {
    exists f <- fs :: Due(f, approved) && f.table == t
  }

  lemma DueForLast(front: seq<Finding>, f: Finding, approved: Option<int>, t: Table)
    ensures DueFor(front + [f], approved, t) <==> DueFor(front, approved, t) || (Due(f, approved) && f.table == t)
  {
    if Due(f, approved) && f.table == t { assert f in front + [f]; }
    if DueFor(front, approved, t) {
      var g :| g in front && Due(g, approved) && g.table == t;
      assert g in front + [f];
    }
  }

  /** After cleanups that all succeed at one time each table is as it was, or cleaned once because a finding was due. */
  lemma {:induction false} ExecuteCleansOnce(tables: map<Table, Rows>, deletedPosts: set<int>, fs: seq<Finding>,
                                             approved: Option<int>, fates: nat -> Fate, now: int, t: Table)
    requires forall k: nat :: k < |fs| ==> fates(k) == Fate(now, None)
    ensures RowsOf(Execute(tables, deletedPosts, fs, approved, fates), t) ==
            if DueFor(fs, approved, t) then CleanRows(RowsOf(tables, t), deletedPosts, t, Fate(now, None))
            else RowsOf(tables, t)
  {
    if fs != [] {
      var front, f := fs[..|fs| - 1], fs[|fs| - 1];
      ExecuteCleansOnce(tables, deletedPosts, front, approved, fates, now, t);
      assert fs == front + [f];
      DueForLast(front, f, approved, t);
      CleanTwice(RowsOf(tables, t), deletedPosts, t, Fate(now, None));
    }
  }

  /** Whatever fails and however long it takes, nothing is touched but rows that match by the time the last cleanup
      ran, in tables with a finding that was due. */
  lemma {:induction false} ExecuteTouchesMatching(tables: map<Table, Rows>, deletedPosts: set<int>, fs: seq<Finding>,
                                                  approved: Option<int>, fates: nat -> Fate, last: int, t: Table)
    requires forall k: nat :: k < |fs| ==> fates(k).at <= last
    ensures var before, after := RowsOf(tables, t), RowsOf(Execute(tables, deletedPosts, fs, approved, fates), t);
            && after.Keys <= before.Keys && Touched(before, after) <= Matching(before, deletedPosts, t, last)
            && (Touched(before, after) != {} ==> DueFor(fs, approved, t) && (HardDeletes(t) || SoftDeletes(t)))
  {
    if fs == [] {
      assert Touched(RowsOf(tables, t), RowsOf(tables, t)) == {};
    } else {
      var front, f := fs[..|fs| - 1], fs[|fs| - 1];
      assert fs == front + [f];
      ExecuteTouchesMatching(tables, deletedPosts, front, approved, fates, last, t);
      DueForLast(front, f, approved, t);
      var mid := RowsOf(Execute(tables, deletedPosts, front, approved, fates), t);
      if Due(f, approved) && f.table == t { OneMoreTouches(RowsOf(tables, t), mid, deletedPosts, t, fates(|fs| - 1), last); }
    }
  }

  lemma OneMoreTouches(before: Rows, mid: Rows, deletedPosts: set<int>, t: Table, fate: Fate, last: int)
    requires mid.Keys <= before.Keys && Touched(before, mid) <= Matching(before, deletedPosts, t, last)
    requires fate.at <= last && (Touched(before, mid) != {} ==> HardDeletes(t) || SoftDeletes(t))
    ensures var after := CleanRows(mid, deletedPosts, t, fate);
            && after.Keys <= before.Keys && Touched(before, after) <= Matching(before, deletedPosts, t, last)
            && (Touched(before, after) != {} ==> HardDeletes(t) || SoftDeletes(t))
  {
    var after := CleanRows(mid, deletedPosts, t, fate);
    CleanTouchesReached(mid, deletedPosts, t, fate);
    forall id | id in Touched(before, after) ensures id in Matching(before, deletedPosts, t, last) {
      if id !in Touched(before, mid) {
        assert id in Touched(mid, after);
        MatchingGrows(deletedPosts, t, before[id], fate.at, last);
      }
    }
    if !(HardDeletes(t) || SoftDeletes(t)) { assert after == mid; }
  }

  lemma {:induction false} DetectCounts(db: Db, scanned: seq<Table>, cycle: int, now: int, auditCutoff: int, f: Finding)
    requires f in Detect(db, scanned, cycle, now, auditCutoff)
    ensures f.classification == (if f.table == AuditLog then Archive else SafeToDelete)
    ensures f.affected == FoundCount(db, f.table, now, auditCutoff)
  {
    if !(FoundCount(db, scanned[0], now, auditCutoff) > 0 && f == Detect(db, scanned, cycle, now, auditCutoff)[0]) {
      DetectCounts(db, scanned[1..], cycle, now, auditCutoff, f);
    }
  }

  lemma DueFindingIsSmall(db: Db, cycle: int, now: int, auditCutoff: int, heavy: bool, f: Finding)
    requires f in Findings(db, cycle, now, auditCutoff, heavy) && Due(f, None)
    ensures f.affected == Count(db.tables, db.deletedPosts, f.table, now)
    ensures TableRowCount(db.tables, f.table) == 0 || f.affected * 20 <= TableRowCount(db.tables, f.table)
  {
    var light, hard := Detect(db, LIGHT, cycle, now, auditCutoff), Detect(db, HEAVY, cycle, now, auditCutoff);
    var raw := light + if heavy then hard + Profile(db, PROFILED, cycle, now) else [];
    var i :| 0 <= i < |raw| && Reclassified(db.tables, raw[i]) == f;
    if raw[i] in light {
      DetectCounts(db, LIGHT, cycle, now, auditCutoff, raw[i]);
    } else if raw[i] in hard {
      DetectCounts(db, HEAVY, cycle, now, auditCutoff, raw[i]);
    }
  }

  /** Whatever fails, a scan by itself touches at most five per cent of any table, of the rows that were due when it
      counted; a row that it touches beyond those became due before its last cleanup. */
  lemma AutomaticCleanupIsSmall(db: Db, cycle: int, now: int, auditCutoff: int, heavy: bool, fates: nat -> Fate,
                                last: int, t: Table)
    requires forall k: nat :: fates(k).at <= last
    ensures var before, after := RowsOf(db.tables, t), RowsOf(Scan(db, cycle, now, auditCutoff, heavy, fates).tables, t);
            var due := Matching(before, db.deletedPosts, t, now);
            && |Touched(before, after) * due| * 20 <= TableRowCount(db.tables, t)
            && Touched(before, after) - due <= Matching(before, db.deletedPosts, t, last)
  {
    var fs := Findings(db, cycle, now, auditCutoff, heavy);
    var rows := RowsOf(db.tables, t);
    var after := RowsOf(Scan(db, cycle, now, auditCutoff, heavy, fates).tables, t);
    ExecuteTouchesMatching(db.tables, db.deletedPosts, fs, None, fates, last, t);
    var due := Matching(rows, db.deletedPosts, t, now);
    var both := Touched(rows, after) * due;
    if both != {} {
      var f :| f in fs && Due(f, None) && f.table == t;
      DueFindingIsSmall(db, cycle, now, auditCutoff, heavy, f);
      SubsetCount(both, due);
      forall id | id in due ensures id in Visible(rows) {}
      SubsetCount(due, Visible(rows));
    }
  }

  /** With the clock standing still these are all the rows it touches. */
  lemma StillClockTouchesFewer(db: Db, cycle: int, now: int, auditCutoff: int, heavy: bool, fates: nat -> Fate, t: Table)
    requires forall k: nat :: fates(k).at <= now
    ensures var before, after := RowsOf(db.tables, t), RowsOf(Scan(db, cycle, now, auditCutoff, heavy, fates).tables, t);
            |Touched(before, after)| * 20 <= TableRowCount(db.tables, t)
  {
    AutomaticCleanupIsSmall(db, cycle, now, auditCutoff, heavy, fates, now, t);
    var before, after := RowsOf(db.tables, t), RowsOf(Scan(db, cycle, now, auditCutoff, heavy, fates).tables, t);
    var due := Matching(before, db.deletedPosts, t, now);
    assert Touched(before, after) * due == Touched(before, after);
  }

  // ---- approvals and runs ----

  datatype Event =
    | RunScan(cycle: int, now: int, auditCutoff: int, heavy: bool, fates: nat -> Fate)
    | RunApproval(cycle: int, fates: nat -> Fate)

  function Next(db: Db, e: Event): Db {
    match e
    case RunScan(cycle, now, auditCutoff, heavy, fates) => Scan(db, cycle, now, auditCutoff, heavy, fates)
    case RunApproval(cycle, fates) => Approve(db, cycle, fates)
  }

  function After(db: Db, es: seq<Event>): Db
    decreases es
  {
    if es == [] then db else After(Next(db, es[0]), es[1..])
  }

  lemma {:induction false} ExecuteKeepsOthers(tables: map<Table, Rows>, deletedPosts: set<int>, fs: seq<Finding>,
                                              approved: Option<int>, fates: nat -> Fate, t: Table)
    requires !HardDeletes(t) && !SoftDeletes(t)
    ensures RowsOf(Execute(tables, deletedPosts, fs, approved, fates), t) == RowsOf(tables, t)
  {
    if fs != [] { ExecuteKeepsOthers(tables, deletedPosts, fs[..|fs| - 1], approved, fates, t); }
  }

  lemma EventKeepsOthers(db: Db, e: Event, t: Table)
    requires !HardDeletes(t) && !SoftDeletes(t)
    ensures RowsOf(Next(db, e).tables, t) == RowsOf(db.tables, t)
  {
    match e
    case RunScan(cycle, now, auditCutoff, heavy, fates) =>
      ExecuteKeepsOthers(db.tables, db.deletedPosts, Findings(db, cycle, now, auditCutoff, heavy), None, fates, t);
    case RunApproval(cycle, fates) => ExecuteKeepsOthers(db.tables, db.deletedPosts, db.log, Some(cycle), fates, t);
  }

  /** No scan and no approval ever removes or changes an audit row, a post, a message or a review, though audit rows
      are reported as due for the archive. */
  lemma {:induction false} AuditRowsAreNeverRemoved(db: Db, es: seq<Event>, t: Table)
    requires t == AuditLog || t == Posts || t == Messages || t == Reviews
    ensures RowsOf(After(db, es).tables, t) == RowsOf(db.tables, t)
    decreases es
  {
    if es != [] {
      EventKeepsOthers(db, es[0], t);
      AuditRowsAreNeverRemoved(Next(db, es[0]), es[1..], t);
    }
  }

  predicate NoneDue(fs: seq<Finding>, approved: Option<int>) {
    forall i :: 0 <= i < |fs| ==> !Due(fs[i], approved)
  }

  predicate NothingPending(log: seq<Finding>, cycle: int) {
    NoneDue(log, Some(cycle))
  }

  lemma {:induction false} ApprovalSettles(tables: map<Table, Rows>, deletedPosts: set<int>, fs: seq<Finding>,
                                           cycle: int, fates: nat -> Fate)
    ensures NothingPending(Marked(tables, deletedPosts, fs, Some(cycle), fates), cycle)
  {
    if fs != [] { ApprovalSettles(tables, deletedPosts, fs[..|fs| - 1], cycle, fates); }
  }

  lemma {:induction false} NothingDue(tables: map<Table, Rows>, deletedPosts: set<int>, fs: seq<Finding>,
                                      approved: Option<int>, fates: nat -> Fate)
    requires NoneDue(fs, approved)
    ensures Execute(tables, deletedPosts, fs, approved, fates) == tables
    ensures Reported(tables, deletedPosts, fs, approved, fates) == 0
    ensures Marked(tables, deletedPosts, fs, approved, fates) == fs
  {
    if fs != [] {
      NothingDue(tables, deletedPosts, fs[..|fs| - 1], approved, fates);
      assert fs == fs[..|fs| - 1] + [fs[|fs| - 1]];
    }
  }

  lemma {:induction false} MarkedKeepsDone(tables: map<Table, Rows>, deletedPosts: set<int>, fs: seq<Finding>,
                                           approved: Option<int>, fates: nat -> Fate, cycle: int)
    requires NothingPending(fs, cycle)
    ensures NothingPending(Marked(tables, deletedPosts, fs, approved, fates), cycle)
  {
    if fs != [] {
      assert fs == fs[..|fs| - 1] + [fs[|fs| - 1]];
      MarkedKeepsDone(tables, deletedPosts, fs[..|fs| - 1], approved, fates, cycle);
    }
  }

  lemma {:induction false} RecentKeepsDone(log: seq<Finding>, since: int, cycle: int)
    requires NothingPending(log, cycle)
    ensures NothingPending(Recent(log, since), cycle)
  {
    if log != [] { RecentKeepsDone(log[1..], since, cycle); }
  }

  lemma {:induction false} DetectsItsCycle(db: Db, scanned: seq<Table>, cycle: int, now: int, auditCutoff: int)
    ensures forall f <- Detect(db, scanned, cycle, now, auditCutoff) :: f.cycle == cycle
  {
    if scanned != [] { DetectsItsCycle(db, scanned[1..], cycle, now, auditCutoff); }
  }

  lemma ScanKeepsDone(db: Db, scan: int, now: int, auditCutoff: int, heavy: bool, fates: nat -> Fate, cycle: int)
    requires NothingPending(db.log, cycle) && scan != cycle
    ensures NothingPending(Scan(db, scan, now, auditCutoff, heavy, fates).log, cycle)
  {
    var fs := Findings(db, scan, now, auditCutoff, heavy);
    DetectsItsCycle(db, LIGHT, scan, now, auditCutoff);
    DetectsItsCycle(db, HEAVY, scan, now, auditCutoff);
    assert NothingPending(fs, cycle);
    MarkedKeepsDone(db.tables, db.deletedPosts, fs, None, fates, cycle);
    RecentKeepsDone(db.log + Marked(db.tables, db.deletedPosts, fs, None, fates), now - 90 * DAY, cycle);
  }

  /** Once a cycle is approved, approving it again does nothing, whatever scans of other cycles and approvals came
      in between. */
  lemma {:induction false} SecondApprovalDoesNothing(db: Db, es: seq<Event>, cycle: int, fates: nat -> Fate)
    requires NothingPending(db.log, cycle)
    requires forall e <- es :: e.RunScan? ==> e.cycle != cycle
    ensures Approve(After(db, es), cycle, fates) == After(db, es)
    decreases es
  {
    if es == [] {
      NothingDue(db.tables, db.deletedPosts, db.log, Some(cycle), fates);
    } else {
      assert es[0] in es;
      match es[0] {
        case RunScan(scan, at, auditCutoff, heavy, own) => ScanKeepsDone(db, scan, at, auditCutoff, heavy, own, cycle);
        case RunApproval(other, own) => MarkedKeepsDone(db.tables, db.deletedPosts, db.log, Some(other), own, cycle);
      }
      SecondApprovalDoesNothing(Next(db, es[0]), es[1..], cycle, fates);
    }
  }

  lemma ApprovedTwice(db: Db, es: seq<Event>, cycle: int, fates: nat -> Fate, later: nat -> Fate)
    requires forall e <- es :: e.RunScan? ==> e.cycle != cycle
    ensures var approved := After(Approve(db, cycle, fates), es); Approve(approved, cycle, later) == approved
  {
    ApprovalSettles(db.tables, db.deletedPosts, db.log, cycle, fates);
    SecondApprovalDoesNothing(Approve(db, cycle, fates), es, cycle, later);
  }
}
