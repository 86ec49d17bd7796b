/** The hygiene job as written: batches deleted in a loop, findings reclassified and executed one by one. */
module HygieneServiceObject {
  import opened Wrappers
  import opened DataHygiene

  const BATCH_SIZE := 1000

  predicate NeverBack(clock: nat -> int, upTo: nat) {
    forall i: nat, j: nat :: i <= j <= upTo ==> clock(i) <= clock(j)
  }

  lemma SplitCount(a: set<int>, b: set<int>)
    requires a !! b
    ensures |a + b| == |a| + |b|
  {}

  /** What one more batch does to the rows deleted so far. */
  lemma BatchAdds(rows: Rows, deletedPosts: set<int>, t: Table, now: int, later: int, gone: set<int>, batch: set<int>)
    requires now <= later && gone <= Matching(rows, deletedPosts, t, now)
    requires batch <= Matching(rows - gone, deletedPosts, t, later)
    ensures gone + batch <= Matching(rows, deletedPosts, t, later) && |gone + batch| == |gone| + |batch|
    ensures rows - gone - batch == rows - (gone + batch)
    ensures batch == Matching(rows - gone, deletedPosts, t, later) ==>
              gone + batch == Matching(rows, deletedPosts, t, later)
  {
    forall id | id in gone ensures id in Matching(rows, deletedPosts, t, later) {
      MatchingGrows(deletedPosts, t, rows[id], now, later);
    }
    SplitCount(gone, batch);
    if batch == Matching(rows - gone, deletedPosts, t, later) {
      forall id | id in Matching(rows, deletedPosts, t, later) ensures id in gone + batch {
        if id !in gone { assert id in Matching(rows - gone, deletedPosts, t, later); }
      }
    }
  }

  /** The clock shows the time at some moment. */
  ghost predicate Shows(clock: nat -> int, at: int) {
    exists n: nat :: clock(n) == at
  }

  ghost predicate AllShown(clocks: nat -> nat -> int, fates: nat -> Fate) {
    forall k: nat :: Shows(clocks(k), fates(k).at)
  }

  /** Only the fates of the findings themselves matter. */
  lemma {:induction false} SameFates(tables: map<Table, Rows>, deletedPosts: set<int>, fs: seq<Finding>,
                                     approved: Option<int>, fates: nat -> Fate, others: nat -> Fate)
    requires forall k: nat :: k < |fs| ==> fates(k) == others(k)
    ensures Execute(tables, deletedPosts, fs, approved, fates) == Execute(tables, deletedPosts, fs, approved, others)
    ensures Marked(tables, deletedPosts, fs, approved, fates) == Marked(tables, deletedPosts, fs, approved, others)
    ensures Reported(tables, deletedPosts, fs, approved, fates) == Reported(tables, deletedPosts, fs, approved, others)
  {
    if fs != [] { SameFates(tables, deletedPosts, fs[..|fs| - 1], approved, fates, others); }
  }

  /** Some of the rows, at most a batch. */
  method TakeBatch(ids: set<int>) returns (batch: set<int>)
    ensures batch <= ids && |batch| == if |ids| < BATCH_SIZE then |ids| else BATCH_SIZE
  {
    batch := {};
    var rest := ids;
    while rest != {} && |batch| < BATCH_SIZE
      invariant batch + rest == ids && batch !! rest && |batch| <= BATCH_SIZE
      decreases |rest|
    {
      var id := AnyOf(rest);
      batch, rest := batch + {id}, rest - {id};
    }
    SplitCount(batch, rest);
  }

  class DataHygieneService {
    var tables: map<Table, Rows>
    var deletedPosts: set<int>
    var log: seq<Finding>

    function State(): Db
      reads this
    {
      Db(tables, deletedPosts, log)
    }

    method DeleteBatch(t: Table, now: int) returns (deleted: nat, ghost batch: set<int>)
      requires t in tables
      modifies this`tables
      ensures batch <= Matching(old(tables)[t], deletedPosts, t, now)
      ensures tables == old(tables)[t := old(tables)[t] - batch] && deleted == |batch|
      ensures deleted < BATCH_SIZE ==> batch == Matching(old(tables)[t], deletedPosts, t, now)
    {
      var ids := Matching(tables[t], deletedPosts, t, now);
      var taken := TakeBatch(ids);
      batch := taken;
      tables := tables[t := tables[t] - taken];
      deleted := |taken|;
      if deleted < BATCH_SIZE {
        SplitCount(taken, ids - taken);
        assert taken + (ids - taken) == ids;
      }
    }

    /** However the clock moves between batches, the loop ends, has deleted exactly the rows that match at the time
        of its last batch, and counts them; unless a batch throws, when those of the batches before are gone. */
    method PurgeInBatches(t: Table, clock: nat -> int, throwsAt: Option<nat>)
        returns (thrown: bool, totalDeleted: nat, ghost last: nat, ghost gone: set<int>)
      requires t in tables && forall n :: NeverBack(clock, n)
      modifies this`tables
      ensures tables == old(tables)[t := old(tables)[t] - gone] && (thrown ==> throwsAt.Some?)
      ensures gone <= Matching(old(tables)[t], deletedPosts, t, clock(last))
      ensures !thrown ==> gone == Matching(old(tables)[t], deletedPosts, t, clock(last)) && totalDeleted == |gone|
    {
      ghost var rows := tables[t];
      var deleted: nat := BATCH_SIZE;
      ghost var batch;
      var turn: nat := 0;
      totalDeleted, gone, last := 0, {}, 0;
      assert rows - {} == rows && tables[t := rows] == tables;
      while deleted >= BATCH_SIZE
        invariant tables == old(tables)[t := rows - gone]
        invariant last == (if turn == 0 then 0 else turn - 1) && totalDeleted == |gone|
        invariant gone <= Matching(rows, deletedPosts, t, clock(last))
        invariant deleted < BATCH_SIZE ==> gone == Matching(rows, deletedPosts, t, clock(last))
        decreases |rows| - |gone|, deleted
      {
        if throwsAt == Some(turn) {
          return true, totalDeleted, last, gone;
        }
        assert NeverBack(clock, turn);
        assert gone <= rows.Keys;
        ghost var before := gone;
        deleted, batch := DeleteBatch(t, clock(turn));
        BatchAdds(rows, deletedPosts, t, clock(last), clock(turn), before, batch);
        gone := before + batch;
        totalDeleted := totalDeleted + deleted;
        SubsetCount(gone, rows.Keys);
        last, turn := turn, turn + 1;
      }
      thrown := false;
    }

    /** A cleanup, as one of its fates: it reaches and reports what matches at the time of its last statement, or it
        throws, reports nothing and has reached some of it. */
    method ExecuteCleanup(t: Table, clock: nat -> int, throwsAt: Option<nat>) returns (affected: nat, ghost fate: Fate)
      requires forall n :: NeverBack(clock, n)
      modifies this`tables
      ensures tables == Cleaned(old(tables), deletedPosts, t, fate)
      ensures affected == Affected(old(tables), deletedPosts, t, fate)
      ensures (fate.thrown.Some? ==> throwsAt.Some?) && Shows(clock, fate.at)
    {
      fate := Fate(clock(0), None);
      if t !in tables {
        forall id ensures id !in Matching(map[], deletedPosts, t, clock(0)) {}
        NoElement(Matching(map[], deletedPosts, t, clock(0)));
        return 0, fate;
      }
      if HardDeletes(t) {
        var thrown;
        ghost var last, gone;
        thrown, affected, last, gone := PurgeInBatches(t, clock, throwsAt);
        fate := Fate(clock(last), if thrown then Some(gone) else None);
        assert Reached(old(tables)[t], deletedPosts, t, fate) == gone;
        assert CleanRows(old(tables)[t], deletedPosts, t, fate) == old(tables)[t] - gone;
        if thrown {
          return 0, fate;
        }
      } else if SoftDeletes(t) {
        if throwsAt == Some(0) {
          fate := Fate(clock(0), Some({}));
          assert CleanRows(tables[t], deletedPosts, t, fate) == tables[t];
          return 0, fate;
        }
        var matching := Matching(tables[t], deletedPosts, t, clock(0));
        var rows := tables[t];
        tables := tables[t := map id | id in rows :: if id in matching then WithDeleted(rows[id]) else rows[id]];
        affected := |matching|;
      } else {
        assert tables == tables[t := tables[t]];
        return 0, fate;
      }
    }

    /** The loop over the findings that are due, of a scan or of an approved cycle; `clocks` and `throwsAt` say what
        happens during the cleanup for each finding. */
    method ExecuteDue(findings: seq<Finding>, approved: Option<int>, clocks: nat -> nat -> int, throwsAt: nat -> Option<nat>)
        returns (marked: seq<Finding>, rowsAffected: nat, ghost fates: nat -> Fate)
      requires forall k, n :: NeverBack(clocks(k), n)
      modifies this`tables
      ensures tables == Execute(old(tables), deletedPosts, findings, approved, fates)
      ensures marked == Marked(old(tables), deletedPosts, findings, approved, fates)
      ensures rowsAffected == Reported(old(tables), deletedPosts, findings, approved, fates)
      ensures NoneDue(findings, approved) ==> rowsAffected == 0
      ensures AllShown(clocks, fates)
    {
      marked, rowsAffected := [], 0;
      fates := (k: nat) => Fate(clocks(k)(0), None);
      forall k: nat ensures Shows(clocks(k), fates(k).at) { assert clocks(k)(0) == fates(k).at; }
      for i := 0 to |findings|
        invariant tables == Execute(old(tables), deletedPosts, findings[..i], approved, fates)
        invariant marked == Marked(old(tables), deletedPosts, findings[..i], approved, fates)
        invariant rowsAffected == Reported(old(tables), deletedPosts, findings[..i], approved, fates)
        invariant NoneDue(findings, approved) ==> rowsAffected == 0
        invariant AllShown(clocks, fates)
      {
        assert findings[..i + 1][..i] == findings[..i];
        var finding := findings[i];
        if Due(finding, approved) {
          var affected;
          ghost var fate;
          affected, fate := ExecuteCleanup(finding.table, clocks(i), throwsAt(i));
          ghost var before := fates;
          fates := (k: nat) => if k == i then fate else before(k);
          SameFates(old(tables), deletedPosts, findings[..i], approved, before, fates);
          marked := marked + [Settled(finding, affected, approved)];
          rowsAffected := rowsAffected + affected;
        } else {
          marked := marked + [finding];
        }
      }
      assert findings[..|findings|] == findings;
    }

    /** Reclassifies the large findings in place, one after the other. */
    method ApplyThreshold(found: seq<Finding>) returns (findings: seq<Finding>)
      ensures findings == ReclassifiedAll(tables, found)
    {
      findings := found;
      for i := 0 to |found|
        invariant |findings| == |found|
        invariant forall k :: 0 <= k < i ==> findings[k] == Reclassified(tables, found[k])
        invariant forall k :: i <= k < |found| ==> findings[k] == found[k]
      {
        var finding := findings[i];
        if finding.classification == SafeToDelete || finding.classification == Archive {
          var totalRows := TableRowCount(tables, finding.table);
          if totalRows > 0 && finding.affected * 20 > totalRows {
            findings := findings[i := finding.(classification := RequiresReview)];
          }
        }
      }
    }

    method RunDiagnosticScan(cycle: int, now: int, auditCutoff: int, heavy: bool, clocks: nat -> nat -> int,
                             throwsAt: nat -> Option<nat>) returns (rowsAffected: nat, ghost fates: nat -> Fate)
      requires forall k, n :: NeverBack(clocks(k), n)
      modifies this
      ensures State() == Scan(old(State()), cycle, now, auditCutoff, heavy, fates)
      ensures rowsAffected == Reported(old(tables), deletedPosts, Findings(old(State()), cycle, now, auditCutoff, heavy), None,
                                       fates)
      ensures AllShown(clocks, fates)
    {
      var found := Detect(State(), LIGHT, cycle, now, auditCutoff);
      if heavy {
        found := found + (Detect(State(), HEAVY, cycle, now, auditCutoff) + Profile(State(), PROFILED, cycle, now));
      }
      ghost var raw := Detect(State(), LIGHT, cycle, now, auditCutoff)
                       + if heavy then Detect(State(), HEAVY, cycle, now, auditCutoff) + Profile(State(), PROFILED, cycle, now)
                         else [];
      assert found == raw;
      var findings := ApplyThreshold(found);
      var marked;
      marked, rowsAffected, fates := ExecuteDue(findings, None, clocks, throwsAt);
      log := Recent(log + marked, now - 90 * DAY);
    }

    /** Approving a cycle with nothing pending affects no rows. */
    method ApproveAndExecute(cycle: int, clocks: nat -> nat -> int, throwsAt: nat -> Option<nat>)
        returns (totalExecuted: nat, ghost fates: nat -> Fate)
      requires forall k, n :: NeverBack(clocks(k), n)
      modifies this
      ensures State() == Approve(old(State()), cycle, fates)
      ensures totalExecuted == Reported(old(tables), deletedPosts, old(log), Some(cycle), fates)
      ensures AllShown(clocks, fates)
      ensures NothingPending(old(log), cycle) ==> totalExecuted == 0
    {
      log, totalExecuted, fates := ExecuteDue(log, Some(cycle), clocks, throwsAt);
    }
  }
}
