/** Verification challenges: one row for each user and type, changed by single statements; an upsert is up to
    three of them, with other callers in between. */
module ChallengeStore {
  import opened Wrappers

  datatype Key = Key(user: int, kind: string)

  datatype Row = Row(key: Key, state: string, expires: int)

  type Rows = map<int, Row>

  // ---- statements ----

  /** Rows a query sees: the filter hides those of deleted users. */
  function Matching(rows: Rows, hidden: set<int>, key: Key): set<int> {
    set id | id in rows && rows[id].key == key && key.user !in hidden
  }

  function MatchingState(rows: Rows, hidden: set<int>, key: Key, expected: string): set<int> {
    set id | id in Matching(rows, hidden, key) && rows[id].state == expected
  }

  function UpdateRows(rows: Rows, ids: set<int>, state: string, expires: int): Rows {
    map id | id in rows :: if id in ids then Row(rows[id].key, state, expires) else rows[id]
  }

  /** The unique index sees hidden rows as well. */
  predicate Taken(rows: Rows, key: Key) {
    exists id :: id in rows && rows[id].key == key
  }

  function TryReplace(rows: Rows, hidden: set<int>, key: Key, expected: Option<string>, state: string, expires: int,
                      newId: int): (Rows, bool) {
    if expected.Some? then
      var ids := MatchingState(rows, hidden, key, expected.value);
      (UpdateRows(rows, ids, state, expires), |ids| == 1)
    else if Taken(rows, key) then (rows, false)
    else (rows[newId := Row(key, state, expires)], true)
  }

  function Delete(rows: Rows, hidden: set<int>, key: Key): Rows {
    rows - Matching(rows, hidden, key)
  }

  function TryDelete(rows: Rows, hidden: set<int>, key: Key, expected: string): (Rows, bool) {
    var ids := MatchingState(rows, hidden, key, expected);
    (rows - ids, |ids| == 1)
  }

  // ---- the machine ----

  /** Where an upsert stands; `wrote` remembers whether any of its statements changed a row. */
  datatype Upsert =
    | Updating(key: Key, state: string, expires: int)
    | Inserting(key: Key, state: string, expires: int)
    | UpdatingAgain(key: Key, state: string, expires: int)
    | Finished(key: Key, wrote: bool)

  datatype World = World(rows: Rows, hidden: set<int>, upserts: map<nat, Upsert>)

  datatype Event =
    | Begin(id: nat, key: Key, state: string, expires: int)
    | Advance(id: nat, newId: int)
    | Replace(key: Key, expected: Option<string>, state: string, expires: int, newId: int)
    | Remove(key: Key)
    | RemoveExpected(key: Key, stored: string)
    | HideUser(user: int, deleted: bool)

  predicate Enabled(w: World, e: Event) {
    match e
    case Begin(id, _, _, _) => id !in w.upserts
    case Advance(id, newId) => id in w.upserts && !w.upserts[id].Finished? && newId !in w.rows
    case Replace(_, _, _, _, newId) => newId !in w.rows
    case _ => true
  }

  function AfterStatement(w: World, u: Upsert, newId: int): (Rows, Upsert)
    requires !u.Finished?
  {
    match u
    case Updating(key, state, expires) =>
      var ids := Matching(w.rows, w.hidden, key);
      (UpdateRows(w.rows, ids, state, expires), if |ids| > 0 then Finished(key, true) else Inserting(key, state, expires))
    case Inserting(key, state, expires) =>
      if Taken(w.rows, key) then (w.rows, UpdatingAgain(key, state, expires))
      else (w.rows[newId := Row(key, state, expires)], Finished(key, true))
    case UpdatingAgain(key, state, expires) =>
      var ids := Matching(w.rows, w.hidden, key);
      (UpdateRows(w.rows, ids, state, expires), Finished(key, |ids| > 0))
  }

  function Next(w: World, e: Event): World
    requires Enabled(w, e)
  {
    match e
    case Begin(id, key, state, expires) => w.(upserts := w.upserts[id := Updating(key, state, expires)])
    case Advance(id, newId) =>
      var step := AfterStatement(w, w.upserts[id], newId);
      World(step.0, w.hidden, w.upserts[id := step.1])
    case Replace(key, expected, state, expires, newId) =>
      w.(rows := TryReplace(w.rows, w.hidden, key, expected, state, expires, newId).0)
    case Remove(key) => w.(rows := Delete(w.rows, w.hidden, key))
    case RemoveExpected(key, expected) => w.(rows := TryDelete(w.rows, w.hidden, key, expected).0)
    case HideUser(user, deleted) => w.(hidden := if deleted then w.hidden + {user} else w.hidden - {user})
  }

  predicate ValidRun(w: World, es: seq<Event>)
    decreases es
  {
    es != [] ==> Enabled(w, es[0]) && ValidRun(Next(w, es[0]), es[1..])
  }

  function After(w: World, es: seq<Event>): World
    requires ValidRun(w, es)
    decreases es
  {
    if es == [] then w else After(Next(w, es[0]), es[1..])
  }

  // ---- one row for each key ----

  predicate OnePerKey(rows: Rows) {
    forall i, j :: i in rows && j in rows && rows[i].key == rows[j].key ==> i == j
  }

  lemma EventKeepsOnePerKey(w: World, e: Event)
    requires OnePerKey(w.rows) && Enabled(w, e)
    ensures OnePerKey(Next(w, e).rows)
  {}

  lemma {:induction false} OneRowPerUserAndType(w: World, es: seq<Event>)
    requires OnePerKey(w.rows) && ValidRun(w, es)
    ensures OnePerKey(After(w, es).rows)
    decreases es
  {
    if es != [] {
      EventKeepsOnePerKey(w, es[0]);
      OneRowPerUserAndType(Next(w, es[0]), es[1..]);
    }
  }

  // ---- the Try operations are compare-and-swap ----

  /** The row of a key, if any; by the invariant there is no other. */
  ghost predicate Holds(rows: Rows, key: Key, state: string, expires: int) {
    exists id :: id in rows && rows[id] == Row(key, state, expires)
  }

  /** Rows of the other keys are the same. */
  predicate OthersSame(before: Rows, after: Rows, key: Key) {
    && (forall id :: id in before && before[id].key != key ==> id in after && after[id] == before[id])
    && (forall id :: id in after && after[id].key != key ==> id in before && before[id] == after[id])
  }

  predicate HasState(rows: Rows, key: Key, state: string) {
    exists id :: id in rows && rows[id].key == key && rows[id].state == state
  }

  lemma MatchCount(rows: Rows, hidden: set<int>, key: Key, expected: string)
    requires OnePerKey(rows)
    ensures |MatchingState(rows, hidden, key, expected)| ==
            if key.user !in hidden && HasState(rows, key, expected) then 1 else 0
  {
    var ids := MatchingState(rows, hidden, key, expected);
    if key.user !in hidden && HasState(rows, key, expected) {
      var id :| id in rows && rows[id].key == key && rows[id].state == expected;
      forall other | other in ids ensures other == id {}
      OneElement(ids, id);
    } else {
      forall id ensures id !in ids {}
      NoElement(ids);
    }
  }

  /** A replacement succeeds exactly when the stored state is the expected one (or there is none and none is
      expected), then stores the new state, and otherwise changes nothing. */
  lemma ReplaceIsCompareAndSwap(rows: Rows, hidden: set<int>, key: Key, expected: Option<string>, state: string,
                                expires: int, newId: int)
    requires OnePerKey(rows) && newId !in rows
    ensures var (after, ok) := TryReplace(rows, hidden, key, expected, state, expires, newId);
            && (ok <==> if expected.Some? then key.user !in hidden && HasState(rows, key, expected.value)
                        else !Taken(rows, key))
            && (ok ==> Holds(after, key, state, expires) && OthersSame(rows, after, key) && OnePerKey(after))
            && (!ok ==> after == rows)
  {
    var after := TryReplace(rows, hidden, key, expected, state, expires, newId).0;
    if expected.Some? {
      MatchCount(rows, hidden, key, expected.value);
      var ids := MatchingState(rows, hidden, key, expected.value);
      if key.user !in hidden && HasState(rows, key, expected.value) {
        var id :| id in rows && rows[id].key == key && rows[id].state == expected.value;
        assert after[id] == Row(key, state, expires);
      } else {
        NoElement(ids);
        assert after == rows;
      }
    } else if !Taken(rows, key) {
      assert after[newId] == Row(key, state, expires);
    }
  }

  lemma DeleteIsCompareAndDelete(rows: Rows, hidden: set<int>, key: Key, expected: string)
    requires OnePerKey(rows)
    ensures var (after, ok) := TryDelete(rows, hidden, key, expected);
            && (ok <==> key.user !in hidden && HasState(rows, key, expected))
            && (ok ==> !Taken(after, key) && OthersSame(rows, after, key))
            && (!ok ==> after == rows)
  {
    MatchCount(rows, hidden, key, expected);
    var ids := MatchingState(rows, hidden, key, expected);
    if key.user !in hidden && HasState(rows, key, expected) {
      var id :| id in rows && rows[id].key == key && rows[id].state == expected;
      assert id in ids;
    } else {
      NoElement(ids);
      assert rows - ids == rows;
    }
  }

  // ---- at most one winner for each expected state ----

  /** The event is a Try operation on the key that expects the state, and succeeds. */
  predicate Wins(w: World, e: Event, key: Key, expected: string)
    requires Enabled(w, e)
  {
    match e
    case Replace(k, x, state, expires, newId) =>
      k == key && x == Some(expected) && TryReplace(w.rows, w.hidden, k, x, state, expires, newId).1
    case RemoveExpected(k, x) => k == key && x == expected && TryDelete(w.rows, w.hidden, k, x).1
    case _ => false
  }

  /** The event stores that state in the row of the key. */
  predicate Writes(w: World, e: Event, key: Key, state: string)
    requires Enabled(w, e)
  {
    match e
    case Replace(k, x, s, expires, newId) =>
      k == key && s == state && TryReplace(w.rows, w.hidden, k, x, s, expires, newId).1
    case Advance(id, newId) =>
      var u := w.upserts[id];
      u.key == key && u.state == state && AfterStatement(w, u, newId).1 == Finished(u.key, true)
    case _ => false
  }

  function Count(b: bool): nat { if b then 1 else 0 }

  function WinCount(w: World, es: seq<Event>, key: Key, expected: string): nat
    requires ValidRun(w, es)
    decreases es
  {
    if es == [] then 0
    else Count(Wins(w, es[0], key, expected)) + WinCount(Next(w, es[0]), es[1..], key, expected)
  }

  function WriteCount(w: World, es: seq<Event>, key: Key, state: string): nat
    requires ValidRun(w, es)
    decreases es
  {
    if es == [] then 0
    else Count(Writes(w, es[0], key, state)) + WriteCount(Next(w, es[0]), es[1..], key, state)
  }

  lemma UpdateMatches(rows: Rows, hidden: set<int>, key: Key)
    requires Taken(rows, key) && key.user !in hidden
    ensures Matching(rows, hidden, key) != {}
  {
    var id :| id in rows && rows[id].key == key;
    assert id in Matching(rows, hidden, key);
  }

  /** A statement of an upsert stores its state in its row, and ends it so, or changes nothing. */
  lemma StatementStoresOrNot(w: World, u: Upsert, newId: int)
    requires OnePerKey(w.rows) && !u.Finished? && newId !in w.rows
    ensures var (rows, end) := AfterStatement(w, u, newId);
            if end == Finished(u.key, true)
            then Holds(rows, u.key, u.state, u.expires) && OthersSame(w.rows, rows, u.key)
            else rows == w.rows
  {
    var rows, end := AfterStatement(w, u, newId).0, AfterStatement(w, u, newId).1;
    if u.Inserting? {
      if end.Finished? { assert rows[newId] == Row(u.key, u.state, u.expires); }
    } else {
      var ids := Matching(w.rows, w.hidden, u.key);
      if ids == {} {
        assert rows == w.rows;
      } else {
        var id := ElementOf(ids);
        assert rows[id] == Row(u.key, u.state, u.expires);
      }
    }
  }

  lemma UpdateOthersState(rows: Rows, ids: set<int>, key: Key, s: string, expires: int, state: string)
    requires s != state || (forall id :: id in ids && id in rows ==> rows[id].key != key)
    ensures HasState(UpdateRows(rows, ids, s, expires), key, state) ==> HasState(rows, key, state)
  {
    var after := UpdateRows(rows, ids, s, expires);
    if HasState(after, key, state) {
      var id :| id in after && after[id].key == key && after[id].state == state;
      assert id in rows && rows[id].key == key && rows[id].state == state;
    }
  }

  /** A win uses the state up: it takes a write of that state to have it again. */
  lemma WinUsesStateUp(w: World, e: Event, key: Key, expected: string)
    requires OnePerKey(w.rows) && Enabled(w, e)
    ensures Count(Wins(w, e, key, expected)) + Count(HasState(Next(w, e).rows, key, expected))
            <= Count(HasState(w.rows, key, expected)) + Count(Writes(w, e, key, expected))
  {
    match e
    case Replace(k, x, s, expires, newId) =>
      ReplaceIsCompareAndSwap(w.rows, w.hidden, k, x, s, expires, newId);
      if k != key || s != expected { ReplaceKeepsOut(w, k, x, s, expires, newId, key, expected); }
    case RemoveExpected(k, x) => DeleteIsCompareAndDelete(w.rows, w.hidden, k, x);
    case Advance(id, newId) =>
      var u := w.upserts[id];
      if u.key != key || u.state != expected { StatementKeepsOut(w, u, newId, key, expected); }
      StatementStoresOrNot(w, u, newId);
    case _ =>
  }

  lemma ReplaceKeepsOut(w: World, k: Key, x: Option<string>, s: string, expires: int, newId: int, key: Key,
                        expected: string)
    requires OnePerKey(w.rows) && newId !in w.rows && (k != key || s != expected)
    ensures var (after, ok) := TryReplace(w.rows, w.hidden, k, x, s, expires, newId);
            HasState(after, key, expected) ==> HasState(w.rows, key, expected) && !(ok && k == key && x == Some(expected))
  {
    var rows, after := w.rows, TryReplace(w.rows, w.hidden, k, x, s, expires, newId).0;
    if HasState(after, key, expected) {
      var id :| id in after && after[id].key == key && after[id].state == expected;
      assert id in rows && rows[id] == after[id];
    }
  }

  lemma StatementKeepsOut(w: World, u: Upsert, newId: int, key: Key, expected: string)
    requires OnePerKey(w.rows) && !u.Finished? && newId !in w.rows && (u.key != key || u.state != expected)
    ensures HasState(AfterStatement(w, u, newId).0, key, expected) ==> HasState(w.rows, key, expected)
  {
    if u.Inserting? {
      var after := AfterStatement(w, u, newId).0;
      if HasState(after, key, expected) {
        var id :| id in after && after[id].key == key && after[id].state == expected;
        assert id in w.rows && w.rows[id] == after[id];
      }
    } else {
      UpdateOthersState(w.rows, Matching(w.rows, w.hidden, u.key), key, u.state, u.expires, expected);
    }
  }

  /** In every interleaving, the callers who present the same expected state succeed at most once for each time
      that state was stored: once if it is stored at the start, and once more for each later write of it. */
  lemma {:induction false} AtMostOneWinnerPerWrite(w: World, es: seq<Event>, key: Key, expected: string)
    requires OnePerKey(w.rows) && ValidRun(w, es)
    ensures WinCount(w, es, key, expected) + Count(HasState(After(w, es).rows, key, expected))
            <= Count(HasState(w.rows, key, expected)) + WriteCount(w, es, key, expected)
    decreases es
  {
    if es != [] {
      EventKeepsOnePerKey(w, es[0]);
      WinUsesStateUp(w, es[0], key, expected);
      AtMostOneWinnerPerWrite(Next(w, es[0]), es[1..], key, expected);
    }
  }

  // ---- when an upsert has written ----

  /** While the upsert runs its user is not deleted, and between its failed insert and its second update nobody
      deletes the row. */
  predicate Undisturbed(w: World, es: seq<Event>, id: nat)
    requires ValidRun(w, es)
    decreases es
  {
    && id in w.upserts
    && (!w.upserts[id].Finished? ==> w.upserts[id].key.user !in w.hidden)
    && (es != [] ==>
          && (w.upserts[id].UpdatingAgain? ==> Taken(Next(w, es[0]).rows, w.upserts[id].key))
          && Undisturbed(Next(w, es[0]), es[1..], id))
  }

  /** An undisturbed upsert never finishes without having written. */
  lemma {:induction false} UndisturbedUpsertWrites(w: World, es: seq<Event>, id: nat)
    requires ValidRun(w, es) && Undisturbed(w, es, id)
    requires w.upserts[id].UpdatingAgain? ==> Taken(w.rows, w.upserts[id].key)
    requires w.upserts[id].Finished? ==> w.upserts[id].wrote
    ensures id in After(w, es).upserts
    ensures After(w, es).upserts[id].Finished? ==> After(w, es).upserts[id].wrote
    decreases es
  {
    if es != [] {
      var u, v := w.upserts[id], Next(w, es[0]);
      if u.UpdatingAgain? {
        UpdateMatches(w.rows, w.hidden, u.key);
      }
      UndisturbedUpsertWrites(v, es[1..], id);
    }
  }

  /** What it means to have written: a statement that ends an upsert leaves its state in the row, or changes nothing at
      all; it does so exactly when it is not the second update, or the user is not deleted and the row is there. */
  lemma FinishedMeansStored(w: World, u: Upsert, newId: int)
    requires OnePerKey(w.rows) && !u.Finished? && newId !in w.rows && AfterStatement(w, u, newId).1.Finished?
    ensures var (rows, end) := AfterStatement(w, u, newId);
            && (end.wrote <==> (u.UpdatingAgain? ==> u.key.user !in w.hidden && Taken(w.rows, u.key)))
            && (end.wrote ==> Holds(rows, u.key, u.state, u.expires) && OthersSame(w.rows, rows, u.key))
            && (!end.wrote ==> rows == w.rows)
  {
    StatementStoresOrNot(w, u, newId);
    if u.UpdatingAgain? {
      var ids := Matching(w.rows, w.hidden, u.key);
      if u.key.user !in w.hidden && Taken(w.rows, u.key) {
        UpdateMatches(w.rows, w.hidden, u.key);
      } else {
        forall id ensures id !in ids {}
        NoElement(ids);
      }
    }
  }

  /** A deleted user whose row is still there: whatever the store holds, an upsert nobody interrupts ends without
      having stored anything. */
  lemma HiddenUpsertStoresNothing(w: World, id: nat, key: Key, state: string, expires: int, newId: int)
    requires key.user in w.hidden && Taken(w.rows, key) && id !in w.upserts && newId !in w.rows
    ensures var es := [Begin(id, key, state, expires), Advance(id, newId), Advance(id, newId), Advance(id, newId)];
            ValidRun(w, es) && After(w, es) == w.(upserts := w.upserts[id := Finished(key, false)])
  {
    var step := Advance(id, newId);
    var ids := Matching(w.rows, w.hidden, key);
    forall x ensures x !in ids {}
    NoElement(ids);
    var w1 := w.(upserts := w.upserts[id := Updating(key, state, expires)]);
    var w2 := w.(upserts := w.upserts[id := Inserting(key, state, expires)]);
    var w3 := w.(upserts := w.upserts[id := UpdatingAgain(key, state, expires)]);
    var w4 := w.(upserts := w.upserts[id := Finished(key, false)]);
    assert UpdateRows(w.rows, ids, state, expires) == w.rows;
    assert Next(w3, step) == w4 && Next(w2, step) == w3 && Next(w1, step) == w2;
    StepThenRun(w3, step, []);
    StepThenRun(w2, step, [step]);
    StepThenRun(w1, step, [step, step]);
    StepThenRun(w, Begin(id, key, state, expires), [step, step, step]);
  }

  lemma StepThenRun(w: World, e: Event, rest: seq<Event>)
    requires Enabled(w, e) && ValidRun(Next(w, e), rest)
    ensures ValidRun(w, [e] + rest) && After(w, [e] + rest) == After(Next(w, e), rest)
  {
    assert ([e] + rest)[1..] == rest;
  }

  lemma NothingMatches(rows: Rows, hidden: set<int>, key: Key, state: string, expires: int)
    requires !Taken(rows, key)
    ensures Matching(rows, hidden, key) == {} && UpdateRows(rows, {}, state, expires) == rows
  {
    var none := Matching(rows, hidden, key);
    forall x ensures x !in none {}
    NoElement(none);
  }

  /** The insert lost to a row that is deleted again before the second update. */
  lemma InsertLostInVain(w: World, id: nat, key: Key, state: string, other: string, expires: int, i: int, j: int)
    requires key.user !in w.hidden && !Taken(w.rows, key) && i !in w.rows && j !in w.rows && i != j
    requires id in w.upserts && w.upserts[id] == Inserting(key, state, expires)
    ensures var es := [Replace(key, None, other, expires, j), Advance(id, i), Remove(key), Advance(id, i)];
            ValidRun(w, es) && After(w, es) == w.(upserts := w.upserts[id := Finished(key, false)])
  {
    var step, taken := Advance(id, i), w.rows[j := Row(key, other, expires)];
    NothingMatches(w.rows, w.hidden, key, state, expires);
    assert j in taken && taken[j].key == key && taken - Matching(taken, w.hidden, key) == w.rows;
    var again := w.upserts[id := UpdatingAgain(key, state, expires)];
    var w3 := w.(upserts := again);
    assert Next(w3, step) == w.(upserts := w.upserts[id := Finished(key, false)]);
    StepThenRun(w3, step, []);
    StepThenRun(w3.(rows := taken), Remove(key), [step]);
    assert Next(w.(rows := taken), step) == w3.(rows := taken);
    StepThenRun(w.(rows := taken), step, [Remove(key), step]);
    StepThenRun(w, Replace(key, None, other, expires, j), [step, Remove(key), step]);
  }

  /** A delete in that window: whatever else the store holds, an upsert that starts without a row, loses the insert to
      another caller and sees that row deleted again ends without having stored anything. */
  lemma DisturbedUpsertStoresNothing(w: World, id: nat, key: Key, state: string, other: string, expires: int, i: int,
                                     j: int)
    requires key.user !in w.hidden && !Taken(w.rows, key) && id !in w.upserts
    requires i !in w.rows && j !in w.rows && i != j
    ensures var es := [Begin(id, key, state, expires), Advance(id, i), Replace(key, None, other, expires, j),
                       Advance(id, i), Remove(key), Advance(id, i)];
            ValidRun(w, es) && After(w, es) == w.(upserts := w.upserts[id := Finished(key, false)])
  {
    var step, rest := Advance(id, i), [Replace(key, None, other, expires, j), Advance(id, i), Remove(key), Advance(id, i)];
    NothingMatches(w.rows, w.hidden, key, state, expires);
    var w1 := w.(upserts := w.upserts[id := Updating(key, state, expires)]);
    var w2 := w.(upserts := w.upserts[id := Inserting(key, state, expires)]);
    InsertLostInVain(w2, id, key, state, other, expires, i, j);
    assert w2.upserts[id := Finished(key, false)] == w.upserts[id := Finished(key, false)];
    assert Next(w1, step) == w2;
    StepThenRun(w1, step, rest);
    StepThenRun(w, Begin(id, key, state, expires), [step] + rest);
  }

  // ---- the adapter as written ----

  class VerificationChallengeAdapter {
    var rows: Rows
    var hidden: set<int>

    method GetChallengeState(key: Key) returns (state: Option<string>)
      requires OnePerKey(rows)
      ensures forall s :: state == Some(s) <==> key.user !in hidden && HasState(rows, key, s)
    {
      var ids := Matching(rows, hidden, key);
      if ids == {} {
        assert forall id :: id in rows && rows[id].key == key && key.user !in hidden ==> id in ids;
        return None;
      }
      var id := AnyOf(ids);
      return Some(rows[id].state);
    }

    method Update(ids: set<int>, state: string, expires: int) returns (updated: nat)
      modifies this`rows
      ensures rows == UpdateRows(old(rows), ids, state, expires) && updated == |ids|
    {
      rows := UpdateRows(rows, ids, state, expires);
      updated := |ids|;
    }

    /** False for a unique constraint violation. */
    method Insert(key: Key, state: string, expires: int, newId: int) returns (inserted: bool)
      requires newId !in rows
      modifies this`rows
      ensures inserted <==> !Taken(old(rows), key)
      ensures rows == if inserted then old(rows)[newId := Row(key, state, expires)] else old(rows)
    {
      if exists id <- rows :: rows[id].key == key {
        return false;
      }
      rows := rows[newId := Row(key, state, expires)];
      return true;
    }

    /** Run without interruption an upsert stores its state, whatever was there, unless a deleted user's row is
        in the way. */
    method UpsertChallengeState(key: Key, state: string, expires: int, newId: int)
      requires OnePerKey(rows) && newId !in rows
      modifies this`rows
      ensures OnePerKey(rows) && OthersSame(old(rows), rows, key)
      ensures key.user !in hidden || !Taken(old(rows), key) ==> Holds(rows, key, state, expires)
      ensures key.user in hidden && Taken(old(rows), key) ==> rows == old(rows)
    {
      ghost var w := World(rows, hidden, map[]);
      var updated := Update(Matching(rows, hidden, key), state, expires);
      if updated > 0 {
        FinishedMeansStored(w, Updating(key, state, expires), newId);
        return;
      }
      assert rows == w.rows;
      var inserted := Insert(key, state, expires, newId);
      if inserted {
        FinishedMeansStored(w, Inserting(key, state, expires), newId);
        return;
      }
      FinishedMeansStored(w, UpdatingAgain(key, state, expires), newId);
      updated := Update(Matching(rows, hidden, key), state, expires);
    }

    method TryReplaceChallengeState(key: Key, expected: Option<string>, state: string, expires: int, newId: int)
        returns (replaced: bool)
      requires newId !in rows
      modifies this`rows
      ensures (rows, replaced) == TryReplace(old(rows), hidden, key, expected, state, expires, newId)
    {
      if expected.Some? {
        var updated := Update(MatchingState(rows, hidden, key, expected.value), state, expires);
        return updated == 1;
      }
      replaced := Insert(key, state, expires, newId);
    }

    /** No row of the key is left, unless its user is deleted; other rows stay. */
    method DeleteChallengeState(key: Key)
      modifies this`rows
      ensures OthersSame(old(rows), rows, key)
      ensures if key.user in hidden then rows == old(rows) else !Taken(rows, key)
    {
      var ids := Matching(rows, hidden, key);
      rows := rows - ids;
      if key.user in hidden {
        forall id ensures id !in ids {}
        NoElement(ids);
        assert rows == old(rows);
      }
    }

    /** Succeeds exactly when the expected state is stored, and then the row is gone; else nothing changes. */
    method TryDeleteChallengeState(key: Key, expected: string) returns (deleted: bool)
      requires OnePerKey(rows)
      modifies this`rows
      ensures deleted <==> key.user !in hidden && HasState(old(rows), key, expected)
      ensures deleted ==> !Taken(rows, key) && OthersSame(old(rows), rows, key)
      ensures !deleted ==> rows == old(rows)
    {
      DeleteIsCompareAndDelete(rows, hidden, key, expected);
      var ids := MatchingState(rows, hidden, key, expected);
      rows := rows - ids;
      return |ids| == 1;
    }
  }
}
