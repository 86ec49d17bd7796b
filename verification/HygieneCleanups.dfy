/** What a scan cleans by itself, what it leaves for review, and what an approval then does, when nothing fails. */
module HygieneCleanups {
  import opened Wrappers
  import opened DataHygiene

  /** What is due, table by table: tokens and challenges that have expired, push subscriptions inactive for ninety days,
      notifications read thirty days ago, pictures and favourites of deleted posts; and nothing that is deleted already. */
  lemma DueExactly(deletedPosts: set<int>, t: Table, row: Row, now: int)
    ensures Matches(deletedPosts, t, row, now) <==>
            || (t == BlacklistedTokens && row.Token? && now >= row.expiresAt)
            || (t == VerificationChallenges && row.Challenge? && now > row.expiresAt && !row.hidden)
            || (t == PushSubscriptions && row.Push? && !row.active && now - row.updatedAt > 7_776_000)
            || (t == Notifications && row.Notification? && row.read && !row.deleted && row.readAt.Some?
                && now - row.readAt.value > 2_592_000)
            || ((t == PostImages || t == Favorites) && row.Child? && row.post in deletedPosts && !row.deleted)
  {}

  /** A cleanup deletes the due rows of the first three tables, marks those of the others as deleted, and leaves every
      other row as it is. */
  lemma CleanExactly(rows: Rows, deletedPosts: set<int>, t: Table, now: int, id: int)
    ensures var after := CleanRows(rows, deletedPosts, t, Fate(now, None));
            if id !in rows then id !in after
            else if !Matches(deletedPosts, t, rows[id], now) then id in after && after[id] == rows[id]
            else if t == BlacklistedTokens || t == VerificationChallenges || t == PushSubscriptions then id !in after
            else id in after && after[id] == match rows[id]
                                             case Notification(read, readAt, _) => Notification(read, readAt, true)
                                             case Child(post, _) => Child(post, true)
                                             case other => other
  {}

  /** A cleanup that does not fail reports just as many rows as it touches. */
  lemma ReportsTouched(tables: map<Table, Rows>, deletedPosts: set<int>, t: Table, now: int)
    ensures Affected(tables, deletedPosts, t, Fate(now, None)) ==
            |Touched(RowsOf(tables, t), RowsOf(Cleaned(tables, deletedPosts, t, Fate(now, None)), t))|
  {
    var rows := RowsOf(tables, t);
    CleanTouchesReached(rows, deletedPosts, t, Fate(now, None));
    if t !in tables {
      forall id ensures id !in Touched(rows, rows) {}
      NoElement(Touched(rows, rows));
      NoElement(Matching(rows, deletedPosts, t, now));
    }
  }

  // ---- what a scan finds ----

  /** The tables that a scan looks at to clean them. */
  predicate Scanned(t: Table, heavy: bool) {
    || t == BlacklistedTokens || t == VerificationChallenges || t == PushSubscriptions || t == Notifications
    || (heavy && (t == PostImages || t == Favorites))
  }

  function DueRows(db: Db, t: Table, now: int): set<int> {
    Matching(RowsOf(db.tables, t), db.deletedPosts, t, now)
  }

  /** At most five per cent of the rows that are counted; challenges of deleted users are not. */
  predicate Small(db: Db, t: Table, now: int) {
    |DueRows(db, t, now)| * 20 <= |Visible(RowsOf(db.tables, t))|
  }

  function Found(db: Db, t: Table, cycle: int, now: int): Finding {
    Finding(cycle, t, KindOf(t), SafeToDelete, |DueRows(db, t, now)|, 1, Nothing, now)
  }

  lemma {:induction false} DetectsExactly(db: Db, scanned: seq<Table>, cycle: int, now: int, auditCutoff: int, f: Finding)
    ensures f in Detect(db, scanned, cycle, now, auditCutoff) <==>
            && f.table in scanned && FoundCount(db, f.table, now, auditCutoff) > 0
            && f == Finding(cycle, f.table, KindOf(f.table), if f.table == AuditLog then Archive else SafeToDelete,
                            FoundCount(db, f.table, now, auditCutoff), 1, Nothing, now)
  {
    if scanned != [] { DetectsExactly(db, scanned[1..], cycle, now, auditCutoff, f); }
  }

  function Raw(db: Db, cycle: int, now: int, auditCutoff: int, heavy: bool): seq<Finding> {
    Detect(db, LIGHT, cycle, now, auditCutoff)
    + if heavy then Detect(db, HEAVY, cycle, now, auditCutoff) + Profile(db, PROFILED, cycle, now) else []
  }

  lemma FindingsAreReclassified(db: Db, cycle: int, now: int, auditCutoff: int, heavy: bool, f: Finding)
    ensures f in Raw(db, cycle, now, auditCutoff, heavy) ==>
              Reclassified(db.tables, f) in Findings(db, cycle, now, auditCutoff, heavy)
    ensures f in Findings(db, cycle, now, auditCutoff, heavy) ==>
              exists raw :: raw in Raw(db, cycle, now, auditCutoff, heavy) && Reclassified(db.tables, raw) == f
  {
    var raw, fs := Raw(db, cycle, now, auditCutoff, heavy), Findings(db, cycle, now, auditCutoff, heavy);
    if f in raw {
      var i :| 0 <= i < |raw| && raw[i] == f;
      assert fs[i] == Reclassified(db.tables, f);
    }
    if f in fs {
      var i :| 0 <= i < |fs| && fs[i] == f;
      assert raw[i] in raw;
    }
  }

  lemma RawFindings(db: Db, cycle: int, now: int, auditCutoff: int, heavy: bool, f: Finding)
    requires Scanned(f.table, true) && !f.classification.Info?
    ensures f in Raw(db, cycle, now, auditCutoff, heavy) <==>
            Scanned(f.table, heavy) && DueRows(db, f.table, now) != {} && f == Found(db, f.table, cycle, now)
  {
    DetectsExactly(db, LIGHT, cycle, now, auditCutoff, f);
    DetectsExactly(db, HEAVY, cycle, now, auditCutoff, f);
    assert f.table in LIGHT <==> Scanned(f.table, false);
    assert f.table in HEAVY <==> f.table == PostImages || f.table == Favorites || f.table == AuditLog;
    var due := DueRows(db, f.table, now);
    if |due| > 0 { assert due != {}; }
    if f in Profile(db, PROFILED, cycle, now) { assert false; }
  }

  /** Expired rows are cold data, rows of deleted posts orphans, the others stale. */
  lemma KindsExactly(t: Table)
    ensures KindOf(t) == if t == BlacklistedTokens || t == VerificationChallenges then ColdData
                         else if t == PostImages || t == Favorites then Orphan else Stale
  {}

  lemma DueRowsAreVisible(db: Db, t: Table, now: int)
    ensures |DueRows(db, t, now)| <= |Visible(RowsOf(db.tables, t))|
  {
    forall id | id in DueRows(db, t, now) ensures id in Visible(RowsOf(db.tables, t)) {}
    SubsetCount(DueRows(db, t, now), Visible(RowsOf(db.tables, t)));
  }

  /** A scan finds a scanned table with due rows, once: safe to delete if they are few, else for review. */
  lemma FindsExactly(db: Db, cycle: int, now: int, auditCutoff: int, heavy: bool, f: Finding)
    requires Scanned(f.table, true) && !f.classification.Info?
    ensures f in Findings(db, cycle, now, auditCutoff, heavy) <==>
            && Scanned(f.table, heavy) && DueRows(db, f.table, now) != {}
            && f == Found(db, f.table, cycle, now).(
                    classification := if Small(db, f.table, now) then SafeToDelete else RequiresReview)
  {
    var found := Found(db, f.table, cycle, now);
    DueRowsAreVisible(db, f.table, now);
    FindingsAreReclassified(db, cycle, now, auditCutoff, heavy, found);
    RawFindings(db, cycle, now, auditCutoff, heavy, found);
    FindingsAreReclassified(db, cycle, now, auditCutoff, heavy, f);
    if f in Findings(db, cycle, now, auditCutoff, heavy) {
      var raw :| raw in Raw(db, cycle, now, auditCutoff, heavy) && Reclassified(db.tables, raw) == f;
      RawFindings(db, cycle, now, auditCutoff, heavy, raw);
    }
  }

  // ---- what a scan cleans ----

  lemma DueByItself(db: Db, cycle: int, now: int, auditCutoff: int, heavy: bool, t: Table)
    requires Scanned(t, true)
    ensures DueFor(Findings(db, cycle, now, auditCutoff, heavy), None, t) <==>
            Scanned(t, heavy) && DueRows(db, t, now) != {} && Small(db, t, now)
  {
    var fs, found := Findings(db, cycle, now, auditCutoff, heavy), Found(db, t, cycle, now);
    if DueFor(fs, None, t) {
      var f :| f in fs && Due(f, None) && f.table == t;
      FindsExactly(db, cycle, now, auditCutoff, heavy, f);
    } else if Small(db, t, now) {
      FindsExactly(db, cycle, now, auditCutoff, heavy, found);
      assert Due(found, None) && found.table == t;
    }
  }

  lemma NothingToClean(rows: Rows, deletedPosts: set<int>, t: Table, now: int)
    requires Matching(rows, deletedPosts, t, now) == {}
    ensures CleanRows(rows, deletedPosts, t, Fate(now, None)) == rows
  {
    var after := CleanRows(rows, deletedPosts, t, Fate(now, None));
    assert forall id :: id in rows ==> id !in Matching(rows, deletedPosts, t, now);
    assert after.Keys == rows.Keys && forall id :: id in rows ==> after[id] == rows[id];
    assert after == rows;
  }

  /** A scan in which nothing fails cleans exactly the scanned tables of which at most five per cent is due. */
  lemma ScanCleansExactly(db: Db, cycle: int, now: int, auditCutoff: int, heavy: bool, fates: nat -> Fate, t: Table)
    requires Scanned(t, true) && forall k: nat :: fates(k) == Fate(now, None)
    ensures RowsOf(Scan(db, cycle, now, auditCutoff, heavy, fates).tables, t) ==
            if Scanned(t, heavy) && Small(db, t, now)
            then CleanRows(RowsOf(db.tables, t), db.deletedPosts, t, Fate(now, None)) else RowsOf(db.tables, t)
  {
    ExecuteCleansOnce(db.tables, db.deletedPosts, Findings(db, cycle, now, auditCutoff, heavy), None, fates, now, t);
    DueByItself(db, cycle, now, auditCutoff, heavy, t);
    if DueRows(db, t, now) == {} { NothingToClean(RowsOf(db.tables, t), db.deletedPosts, t, now); }
  }

  /** An approval in which nothing fails cleans exactly the tables of the findings of its cycle that wait for review. */
  lemma ApprovalCleansExactly(db: Db, cycle: int, now: int, fates: nat -> Fate, t: Table)
    requires forall k: nat :: fates(k) == Fate(now, None)
    ensures RowsOf(Approve(db, cycle, fates).tables, t) ==
            if exists f <- db.log :: f.cycle == cycle && f.classification == RequiresReview && f.phase == 1 && f.table == t
            then CleanRows(RowsOf(db.tables, t), db.deletedPosts, t, Fate(now, None)) else RowsOf(db.tables, t)
  {
    ExecuteCleansOnce(db.tables, db.deletedPosts, db.log, Some(cycle), fates, now, t);
    if DueFor(db.log, Some(cycle), t) {
      var f :| f in db.log && Due(f, Some(cycle)) && f.table == t;
      assert f.cycle == cycle && f.classification == RequiresReview && f.phase == 1;
    }
  }

  // ---- what a scan logs ----

  lemma {:induction false} RecentExactly(log: seq<Finding>, since: int, f: Finding)
    ensures f in Recent(log, since) <==> f in log && f.detectedAt >= since
  {
    if log != [] { RecentExactly(log[1..], since, f); }
  }

  /** How a finding comes out of the cleanups: as it was if it was not due; done, softly for orphans, if its cleanup
      affected a row; and else skipped by an approval, but left for the next scan by a scan. */
  lemma {:induction false} MarkedExactly(tables: map<Table, Rows>, deletedPosts: set<int>, fs: seq<Finding>,
                                         approved: Option<int>, fates: nat -> Fate, i: nat)
    requires i < |fs|
    ensures |Marked(tables, deletedPosts, fs, approved, fates)| == |fs|
    ensures var f := fs[i];
            var due := if approved.None? then f.classification == SafeToDelete
                       else f.cycle == approved.value && f.classification == RequiresReview && f.phase == 1;
            var affected := Affected(Execute(tables, deletedPosts, fs[..i], approved, fates), deletedPosts, f.table, fates(i));
            Marked(tables, deletedPosts, fs, approved, fates)[i] ==
            if !due then f
            else if affected > 0 then f.(phase := 2, action := if f.kind == Orphan then SoftDeleted else HardDeleted)
            else if approved.None? then f else f.(phase := 2, action := Skipped)
  {
    var front := fs[..|fs| - 1];
    if i < |fs| - 1 {
      MarkedExactly(tables, deletedPosts, front, approved, fates, i);
      assert front[..i] == fs[..i];
    } else if front != [] {
      MarkedExactly(tables, deletedPosts, front, approved, fates, |front| - 1);
    }
  }

  lemma KeptUnlessSafe(tables: map<Table, Rows>, deletedPosts: set<int>, fs: seq<Finding>, fates: nat -> Fate, f: Finding)
    requires f in fs && f.classification != SafeToDelete
    ensures f in Marked(tables, deletedPosts, fs, None, fates)
  {
    var i :| 0 <= i < |fs| && fs[i] == f;
    MarkedExactly(tables, deletedPosts, fs, None, fates, i);
    assert Marked(tables, deletedPosts, fs, None, fates)[i] == f;
  }

  lemma LoggedUnlessSafe(db: Db, cycle: int, now: int, auditCutoff: int, heavy: bool, fates: nat -> Fate, f: Finding)
    requires f in Findings(db, cycle, now, auditCutoff, heavy) && f.classification != SafeToDelete && f.detectedAt == now
    ensures f in Scan(db, cycle, now, auditCutoff, heavy, fates).log
  {
    var fs := Findings(db, cycle, now, auditCutoff, heavy);
    KeptUnlessSafe(db.tables, db.deletedPosts, fs, fates, f);
    RecentExactly(db.log + Marked(db.tables, db.deletedPosts, fs, None, fates), now - 90 * DAY, f);
  }

  /** Old audit rows are reported for the archive, or for review if they are more than five per cent. */
  lemma AuditIsReported(db: Db, cycle: int, now: int, auditCutoff: int, fates: nat -> Fate)
    requires StaleAudit(RowsOf(db.tables, AuditLog), auditCutoff) != {}
    ensures var stale, all := StaleAudit(RowsOf(db.tables, AuditLog), auditCutoff), Visible(RowsOf(db.tables, AuditLog));
            Finding(cycle, AuditLog, Stale, if |all| > 0 && |stale| * 20 > |all| then RequiresReview else Archive, |stale|, 1,
                    Nothing, now) in Scan(db, cycle, now, auditCutoff, true, fates).log
  {
    var stale := StaleAudit(RowsOf(db.tables, AuditLog), auditCutoff);
    var f := Finding(cycle, AuditLog, Stale, Archive, |stale|, 1, Nothing, now);
    DetectsExactly(db, HEAVY, cycle, now, auditCutoff, f);
    assert HEAVY[2] == AuditLog;
    FindingsAreReclassified(db, cycle, now, auditCutoff, true, f);
    LoggedUnlessSafe(db, cycle, now, auditCutoff, true, fates, Reclassified(db.tables, f));
  }

  /** A heavy scan reports the size of six tables. */
  lemma HealthIsReported(db: Db, cycle: int, now: int, auditCutoff: int, fates: nat -> Fate, t: Table)
    requires t in [Posts, PostImages, Favorites, Messages, Reviews, Notifications]
    ensures Finding(cycle, t, TableHealth, Info, |RowsOf(db.tables, t)|, 1, Nothing, now)
            in Scan(db, cycle, now, auditCutoff, true, fates).log
  {
    var i :| 0 <= i < |PROFILED| && PROFILED[i] == t;
    var f := Finding(cycle, t, TableHealth, Info, |RowsOf(db.tables, t)|, 1, Nothing, now);
    assert Profile(db, PROFILED, cycle, now)[i] == f;
    FindingsAreReclassified(db, cycle, now, auditCutoff, true, f);
    LoggedUnlessSafe(db, cycle, now, auditCutoff, true, fates, f);
  }

  /** What an earlier scan has logged goes after ninety days, and not before. */
  lemma LogIsKeptForNinetyDays(db: Db, cycle: int, now: int, auditCutoff: int, heavy: bool, fates: nat -> Fate, f: Finding)
    requires f in db.log
    ensures f in Scan(db, cycle, now, auditCutoff, heavy, fates).log || now - f.detectedAt > 7_776_000
    ensures forall g <- Scan(db, cycle, now, auditCutoff, heavy, fates).log :: now - g.detectedAt <= 7_776_000
  {
    var marked := Marked(db.tables, db.deletedPosts, Findings(db, cycle, now, auditCutoff, heavy), None, fates);
    RecentExactly(db.log + marked, now - 90 * DAY, f);
    forall g | g in Scan(db, cycle, now, auditCutoff, heavy, fates).log ensures now - g.detectedAt <= 7_776_000 {
      RecentExactly(db.log + marked, now - 90 * DAY, g);
    }
  }

  /** A scanned table of which more than five per cent is due waits for review, with the number of rows. */
  lemma LargeFindingWaits(db: Db, cycle: int, now: int, auditCutoff: int, heavy: bool, fates: nat -> Fate, t: Table)
    requires Scanned(t, heavy) && !Small(db, t, now)
    ensures Finding(cycle, t, KindOf(t), RequiresReview, |DueRows(db, t, now)|, 1, Nothing, now)
            in Scan(db, cycle, now, auditCutoff, heavy, fates).log
  {
    var f := Finding(cycle, t, KindOf(t), RequiresReview, |DueRows(db, t, now)|, 1, Nothing, now);
    FindsExactly(db, cycle, now, auditCutoff, heavy, f);
    LoggedUnlessSafe(db, cycle, now, auditCutoff, heavy, fates, f);
  }

  /** Between them, a scan and the approval of its cycle clean every scanned table, when nothing fails: what the scan did
      not clean because it was too much, the approval cleans. */
  lemma ScanAndApprovalCleanAll(db: Db, cycle: int, now: int, auditCutoff: int, heavy: bool, fates: nat -> Fate, t: Table)
    requires Scanned(t, heavy) && forall k: nat :: fates(k) == Fate(now, None)
    ensures var after := Approve(Scan(db, cycle, now, auditCutoff, heavy, fates), cycle, fates);
            && RowsOf(after.tables, t) == CleanRows(RowsOf(db.tables, t), db.deletedPosts, t, Fate(now, None))
            && DueRows(after, t, now) == {}
  {
    var rows, once := RowsOf(db.tables, t), CleanRows(RowsOf(db.tables, t), db.deletedPosts, t, Fate(now, None));
    var scanned := Scan(db, cycle, now, auditCutoff, heavy, fates);
    ScanCleansExactly(db, cycle, now, auditCutoff, heavy, fates, t);
    ApprovalCleansExactly(scanned, cycle, now, fates, t);
    CleanTwice(rows, db.deletedPosts, t, Fate(now, None));
    if !Small(db, t, now) { LargeFindingWaits(db, cycle, now, auditCutoff, heavy, fates, t); }
    forall id ensures id !in Matching(once, db.deletedPosts, t, now) {
      if id in once && id in rows { CleanExactly(rows, db.deletedPosts, t, now, id); }
    }
    NoElement(Matching(once, db.deletedPosts, t, now));
  }
}
